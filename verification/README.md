# A verified model of the apo-receiver state machines

The receiver collects trace spans, schedules the building of reports, keeps
metrics and steers remote agents. This project models the parts of it whose
correctness rests on state kept over time or on a structure that has to be read
back, and proves what they promise over every history of events.

| file | models |
|---|---|
| `SilentSwitch.dfy`, `SilentStatus.dfy`, `SilentScan.dfy`, `SilentLedger.dfy` | the silent switches of a node and the silenced set of its agent, with polls, reports and collections as one step each and in their own small steps |
| `MetricStore.dfy`, `MetricExport.dfy` | metrics of one definition under an LRU with an evicted side map, and what an export writes |
| `TaskScheduler.dfy` | todo and retry queues, bounded retries, round-robin dispatch |
| `TraceStore.dfy`, `TraceRace.dfy` | which traces of a task are stored, across retries that merge new ones, by one worker and by several at once |
| `MissTop.dfy`, `MissTopRace.dfy`, `MissTopElection.dfy` | who reports a trace without a root: over the local register, with handlers that interleave, and over the shared register |
| `Histogram.dfy` | the lazily allocated logarithmic histogram |
| `Trees.dfy`, `ErrorPropagation.dfy` | flattening of an error tree into rows and columns |
| `ExternalFactory.dfy`, `Topology.dfy`, `Relation.dfy` | from the services of a trace over linked topology nodes to relation rows |
| `MemorySampler.dfy`, `SharedSample.dfy` | the adaptive sample value, alone and shared by several receivers |
| `TraceIdPoll.dfy` | delivery of sampled trace ids by poll windows |
| `MutatedType.dfy` | the resource that made a request slow, computed in two places |
| `DrainQueue.dfy` | the send queues over Go slices |
| `Text.dfy`, `MachineInts.dfy`, `Basics.dfy` | decimal text, separators and paths; 64-bit arithmetic; shared notions |

Objects that the source updates in place are classes: each method states the
new state, by a function of the old one or outright, and the run theorems are
about the same functions. A `Run` function folds a list of events, so a theorem
about `Run(es)` for all `es` speaks of every reachable state and every
interleaving. Range loops over maps take the keys in arbitrary order. A section
under a lock is one step; clocks, the outcome of building a report, the answers
of the apo-module accessors and the capacity that Go's append chooses are
inputs.

## What turned out to hold only under a condition

- The agent's silenced set equals the pid-urls in Closing exactly as long as no
  minute collection comes while a tuple is Closing (`AgentExactIff`). After such
  a collection the cache cannot recover the pid-url any more; profiled reports
  alone never lift the silence (`StaysSilenced`, `ForgottenSilence`).
- Polls, reports and collections share no lock that keeps them apart. In small
  steps three of them part the agent from the Closing tuples at a pid-url: a
  check of a metric deleted after it was loaded that leaves it Closing, a healing
  that a deleted tuple's entry on the ignore list hides, and the deletion of a
  pid-url's last Closing tuple that the poll under way does not recover. Two join
  them there again: a check that opens a tuple, and the healing of a deleted one
  that the answer recovers. Between polls the agent is exact if and only if at no
  pid-url the last of these steps was a parting one (`RestExactIff`); it is so
  after every step, counting the answer under way, if and only if no parting step
  is taken at all (`AlignedIff`). Reports, and deletions of tuples
  that are neither Closing nor loaded, do no harm (`HarmlessDeletions`); a
  deletion of a loaded one can (`StrayClose`). A report is missing from all rows
  exactly if it was counted in a deleted metric or between the row and the
  deletion of its tuple (`NothingMissedIff`).
- With one worker, no span is stored twice exactly if the first traces and each
  merged answer hold no span twice (`SpanStoredOnceIff`). A slow and an error
  task share the list, and their workers no lock. Then the list holds no span in
  two traces exactly if no merge, when it reads the known spans, brings an unknown
  span twice or one that another merge has another trace of still to append
  (`ListApartIff`); no trace is stored twice exactly if no two workers ever stand
  between the look at its mark and its storing (`TraceStoredOnceIff`); and no span
  is stored twice exactly under both (`StoredOnceIff`). `RacingMerges` and
  `RacingStores` are failing runs.
- The handlers of one receiver share no lock: the mark of a top span stands
  exactly if no span that looked before it records after it (`MarkStandsIff`),
  and spans that overtake each other, or that enter while a pass of checkTask is
  under way, can leave a trace without a reporter (`RootlessWinsIff`,
  `OvertakenIsLost`, `DropsUncomparedIff`, `ReplacedIsLost`).
- The retry prefix is exactly the due tasks if and only if no due task stands
  behind one that is not (`PrefixTakesDueIff`); a clock that steps back breaks
  it (`ClockBackDelays`).
- Over the shared register at most one receiver wins a key, but a second
  non-top span of the winner leaves the trace without a reporter
  (`NobodyWins`), and a top span that comes second does not stop the winner
  (`LateTopIgnored`). `WinExact` says exactly when a receiver wins.
- A cached id is delivered once for every time the agent falls behind it by a
  failed read of the counter, once more if its window is answered, once less for
  every poll in which the agent reports it itself, and once less if it was stored
  late, that is split by a whole poll (`DeliveriesExact`,
  `SplitConsumeLoses`, `FailureRepeatsAll`).
- A drain fails exactly if other drainers took more since its read of the
  length than was stored since (`FailsIff`); with one drainer it never does.
- Where the shared sample key may expire or its read fail, the bounds hold
  exactly if 0 lies within them (`ExpiryIff`).
- The database name read back from an external that is named by an operation is
  right exactly if the first word of the operation has four or more characters,
  the database name no dot, and an operation of several words goes on with it;
  without a database name, exactly if that first word is shorter or nothing
  behind it reads as one. `ExternalDbName` has the condition for every database
  span, `WrongDb` the failing names.
- Own label values without quotes are shared with no others; a definition with
  two or more keys does not tell all values apart (`LabelKeyInjective`,
  `SeparatesIff`).
- From nine fields on, the reported resource is the first largest stored one
  exactly if the run queue leads by the last and by the ninth field or by neither
  (`ComputationsAgree`).
- The documentation of the histogram says that the upper end of a range belongs
  to it; the code puts 10^18 into the upper bucket and 10^-9 into bucket 0
  (`BucketBounds`, `TenBuckets`).
- With an unknown metric type the cache takes keys but is never cleaned
  (`UnknownTypeKeepsKeys`).

## Model

| member | source | states |
|---|---|---|
| SilentSwitch.SlowReportMetric.AddMetric | pkg/componment/profile/signal_cache.go:210-215 | one more report, one more success if it was profiled, same status |
| SilentSwitch.SlowReportMetric.CheckStatus | pkg/componment/profile/signal_cache.go:217-235 | Init to Closing on reports without success, to Finished with one, Closing to Finished on a success; close, recover and silent flags tell which |
| SilentSwitch.SignalCache.AddSignal | pkg/componment/profile/signal_cache.go:77-107 | the tuple's own counters change, made on first use, all others stay |
| SilentSwitch.SignalCache.QuerySilentSwitches | pkg/componment/profile/signal_cache.go:109-148 | in any scan order: every tuple steps, the close list holds the newly opened pid-urls, the recover list the healed ones that no tuple keeps silent, each once |
| SilentSwitch.SignalCache.CollectCountMetrics | pkg/componment/profile/signal_cache.go:150-174 | one row per tuple with reports, in some order, and every tuple is forgotten |
| SilentSwitch.PidUrlInjective | pkg/componment/profile/signal_cache.go:184-186 | equal keys mean equal pid and url |
| SilentSwitch.AnswerDisjoint | pkg/componment/profile/signal_cache.go:132-147 | close and recover lists of an answer are disjoint, so their order of application does not matter |
| SilentSwitch.ClosingAfterQuery | pkg/componment/profile/signal_cache.go:109-148 | the Closing pid-urls change by exactly the two lists of the answer |
| SilentSwitch.AgentExactIff | pkg/componment/profile/signal_cache.go:77-174 | over every run the agent's set is exactly the Closing pid-urls after each step if and only if no collection finds a Closing tuple |
| SilentSwitch.SilencedProcess | pkg/componment/profile/signal_cache.go:184-186 | an exact agent silences a process's url exactly when some tuple with that pid and url is Closing |
| SilentSwitch.AgentCovers | pkg/componment/profile/signal_cache.go:77-174 | with collections anywhere the agent still silences everything in Closing |
| SilentSwitch.StaysSilenced | pkg/componment/profile/signal_cache.go:150-174 | a silenced pid-url without a Closing tuple is never recovered before a query closes it anew |
| SilentSwitch.ForgottenSilence | pkg/componment/profile/signal_cache.go:150-174 | the five-event run after which a healthy process stays silenced |
| SilentSwitch.CountsConserved | pkg/componment/profile/signal_cache.go:150-174 | per tuple, the counters found by the collections plus the live counters equal the reports and profiled reports added |
| SilentStatus.RowSays | pkg/componment/profile/signal_cache.go:158-168 | a row holds the time, the four names of its tuple, its total and its successes |
| SilentStatus.RowsConserve | pkg/componment/profile/signal_cache.go:150-174 | over every run the totals and the successes in the written rows of a tuple, with its live counters, are its reports and its profiled reports |
| SilentStatus.StatusIs | pkg/componment/profile/signal_cache.go:217-235 | over every run counters and status of a tuple in terms of the reports since the last collection and of what the last query saw of them |
| SilentStatus.ClosedIff | pkg/componment/profile/signal_cache.go:114-140 | an answer closes a pid-url exactly if a tuple of it is asked about for the first time and has only unprofiled reports |
| SilentStatus.RecoveredIff | pkg/componment/profile/signal_cache.go:114-147 | it recovers one exactly if a tuple of it got its first profiled report since the last query and every reported tuple of it has one |
| SilentScan.RestCovers | pkg/componment/profile/signal_cache.go:77-174 | whatever interleaves, an agent between polls silences everything in Closing |
| SilentScan.RestExactIff | pkg/componment/profile/signal_cache.go:77-174 | over every run the agent between polls silences exactly what is Closing if and only if every parting step at a pid-url was followed by a joining one |
| SilentScan.AlignedIff | pkg/componment/profile/signal_cache.go:77-174 | after each step of a run, counting the answer under way, agent and Closing tuples agree exactly if no parting step is taken |
| SilentScan.RestExact | pkg/componment/profile/signal_cache.go:77-174 | without parting steps the agent between polls silences exactly what is Closing |
| SilentScan.HarmlessDeletions | pkg/componment/profile/signal_cache.go:77-174 | reports, and deletions of tuples neither Closing nor loaded by the poll, are never parting steps |
| SilentScan.StrayClose | pkg/componment/profile/signal_cache.go:114-131 | the deletion of a loaded tuple after which the answer closes a pid-url that no tuple holds |
| SilentScan.AnswersDisjoint | pkg/componment/profile/signal_cache.go:132-147 | an interrupted poll never closes and recovers the same pid-url |
| SilentScan.QuietReportIsAdd | pkg/componment/profile/signal_cache.go:77-95 | a report that nothing interrupts is the one-step report |
| SilentLedger.QuietPollIsQuery | pkg/componment/profile/signal_cache.go:109-148 | a poll that nothing interrupts, in any order of the tuples, is the one-step query |
| SilentLedger.ReportsAccounted | pkg/componment/profile/signal_cache.go:77-174 | every report is in a row, in a counter no row shows yet, or came late |
| SilentLedger.NothingMissedIff | pkg/componment/profile/signal_cache.go:150-174 | rows and counters hold every report exactly if none was counted in a deleted metric or between a row and the deletion of its tuple |
| MetricStore.Cache.Add | pkg/metrics/model/cache.go:43-46 | the key is newest, over capacity the oldest goes to the evicted items, everything stays findable |
| MetricStore.Cache.Get | pkg/metrics/model/cache.go:48-62 | finds exactly LRU and evicted items, revives the latter, changes nothing that can be found |
| MetricStore.Cache.Contains | pkg/metrics/model/cache.go:64-66 | membership in the LRU without touching its order |
| MetricStore.Cache.RemoveEvictedItems | pkg/metrics/model/cache.go:35-41 | empties the evicted items only |
| MetricStore.BuildLabelKey | pkg/metrics/metrics.go:171-189 | the label list of equally many keys and values, else an error |
| MetricStore.LabelKeyInjective | pkg/metrics/metrics.go:171-189 | quote-free label values share their metric with no other values, quoted or not |
| MetricStore.SeparatesIff | pkg/metrics/metrics.go:171-189 | a key list tells all label values apart exactly if it has at most one key |
| MetricStore.QuotesCollide | pkg/metrics/metrics.go:171-189 | with quotes in a value two different label lists get the same key |
| MetricStore.LruMetrics.UpdateMetric | pkg/metrics/metrics.go:86-114 | errors, and the panic of a counter on a negative value, leave what the source leaves; an accepted update reaches the metric of its key and makes the key the newest |
| MetricStore.LruMetrics.Export | pkg/metrics/metrics.go:116-137 | writes the sample of every metric, then keeps exactly those whose key the LRU holds |
| MetricStore.RunAgrees | pkg/metrics/metrics.go:86-137 | in every reachable state of a known type the keys of datas are the disjoint union of LRU and evicted keys |
| MetricStore.ExportMatchesLru | pkg/metrics/metrics.go:124-134 | right after an export datas and the LRU have the same keys and nothing is evicted |
| MetricStore.LruHoldsNewest | pkg/metrics/model/cache.go:43-62 | the LRU is the most recently updated distinct keys of the whole history, newest first, all of them if fewer than its size |
| MetricStore.MetricHasItsLife | pkg/metrics/metrics.go:92-134 | the state of a metric is that of a new one after all updates of its key since first use or since the last export that found it outside the LRU; evictions and revivals leave no trace |
| MetricStore.AccumulatedIs | pkg/metrics/pm/prom_counter.go:31-33 | updates make a histogram the observed one, a counter or gauge the sum of what it takes |
| MetricStore.NothingLost | pkg/metrics/metrics.go:116-137 | every update since the previous export is in the metric that the next one writes |
| MetricStore.CounterBetweenExports | pkg/metrics/metrics.go:116-137 | between two exports a kept counter or gauge grows by the updates in between, a dropped one starts from them |
| MetricStore.UnknownTypeKeepsKeys | pkg/metrics/metrics.go:95-111 | with an unknown type nothing is written and no key ever leaves LRU and evicted items |
| MetricExport.HistogramWritten | pkg/metrics/vm/vm_histogram.go:233-258 | the rows written for a histogram are the buckets that the updates of its key's life hit, with their hits; sum and count those of the accepted ones |
| MetricExport.CounterWritten | pkg/metrics/pm/prom_counter.go:35-44 | a counter writes the sum of the updates of its key's life, without those it refused |
| MetricExport.GaugeWritten | pkg/metrics/pm/prom_gauge.go:31-44 | a gauge writes the sum of all of them |
| TaskScheduler.TaskPool.RetryTask | pkg/analyzer/analyzer.go:767-774 | one more retry, a new check time, the end of the retry queue |
| TaskScheduler.TaskPool.GetToProcessTasks | pkg/analyzer/analyzer.go:776-807 | hands out all todo tasks and then the due head of the retry queue, keeps the rest |
| TaskScheduler.ReportAnalyzer.ProcessTask | pkg/analyzer/analyzer.go:264-287 | reported on success, back to the queue on a retryable error while retries are left and allowed, else dropped |
| TaskScheduler.ReportAnalyzer.Dispatch | pkg/analyzer/analyzer.go:677-685 | one send per task, workers in turn |
| TaskScheduler.PrefixTakesDueIff | pkg/analyzer/analyzer.go:787-801 | the prefix loop takes exactly the due tasks and keeps the others in order if and only if no due task stands behind one that is not |
| TaskScheduler.FairShares | pkg/analyzer/analyzer.go:677-684 | over all ticks any two workers get counts that differ by at most one |
| TaskScheduler.OnePlace | pkg/analyzer/analyzer.go:264-287 | every added task is at each step in exactly one of todo, retry, in flight, over |
| TaskScheduler.AttemptsBounded | pkg/analyzer/analyzer.go:264-287 | at most retryTimes + 1 attempts, one with ignoreRetry, and one verdict, report or drop, exactly when the task is in no queue |
| TaskScheduler.DropMeansExhausted | pkg/analyzer/analyzer.go:276-285 | after a retryable error a task is dropped exactly when its attempts are used up |
| TaskScheduler.LastAttemptDecides | pkg/analyzer/analyzer.go:264-287 | over every run a task is reported exactly if its last attempt succeeded, dropped exactly if that was fatal or used up the budget, and a waiting task is due one period after it |
| TaskScheduler.RetryHandedOutIff | pkg/analyzer/analyzer.go:787-801 | under a forward clock a tick hands out a waiting task exactly from one period after its last attempt on |
| TaskScheduler.FuelFalls | pkg/analyzer/analyzer.go:264-287 | a measure over all tasks that every attempt lowers, ticks keep, a new task raises by its budget, and that is zero exactly when nothing is left |
| TaskScheduler.TotalAttempts | pkg/analyzer/analyzer.go:264-287 | the attempts of a run stay within the budgets of the added tasks |
| TaskScheduler.RetrySorted | pkg/analyzer/analyzer.go:767-774 | under a clock that never goes back the retry queue is sorted by check time |
| TaskScheduler.TickTakesDue | pkg/analyzer/analyzer.go:787-801 | so every tick hands out exactly the due tasks, in order |
| TaskScheduler.ClockBackDelays | pkg/analyzer/analyzer.go:767-801 | a clock step back leaves a due task waiting |
| TraceStore.Store.StoreTrace | pkg/analyzer/analyzer.go:440-445 | logs a trace that is not marked, and marks it |
| TraceStore.Store.StoreTraces | pkg/analyzer/analyzer.go:434-438 | the traces not stored before, each once, in order |
| TraceStore.Store.SendProfiledSpanTrace | pkg/analyzer/analyzer.go:289-298 | only a profiled or single trace is stored, a slow one without a type as unknown |
| TraceStore.MergeTraces | pkg/analyzer/analyzer.go:230-241 | appends the traces of unknown spans, in order, and stores the direct ones among them that were not stored |
| TraceStore.StoredOnce | pkg/analyzer/analyzer.go:434-445 | over every run of one worker at a time no trace is stored twice, and after a report exactly the traces of the task are |
| TraceStore.ApartIff | pkg/analyzer/analyzer.go:230-241 | with one worker at a time a span has two traces in a task only if one answer of the cache already held both |
| TraceStore.SpanStoredOnceIff | pkg/analyzer/analyzer.go:230-241 | with one worker at a time no span is stored twice exactly if no single answer holds one twice |
| TraceStore.Store.SendProfiled | pkg/analyzer/analyzer.go:184-186 | of the first traces the direct ones are stored, each once |
| TraceStore.DirectStored | pkg/analyzer/analyzer.go:184-186 | before a report exactly the profiled and single traces are stored |
| TraceRace.AloneIsOneStep | pkg/analyzer/analyzer.go:230-241 | a worker that nothing interrupts merges and stores as in TraceStore |
| TraceRace.TraceStoredOnceIff | pkg/analyzer/analyzer.go:440-445 | over all runs of any number of workers to their end, no trace is stored twice exactly if the stretches from a worker's look at an unset mark to its storing never overlap for one trace |
| TraceRace.ListApartIff | pkg/analyzer/analyzer.go:230-241 | at the end the shared list holds no span in two traces exactly if it did not at the start and no merge, when it read the known spans, overlapped with itself or with what other merges had still to append |
| TraceRace.StoredOnceIff | pkg/analyzer/analyzer.go:193-198 | when all is stored, no span is in the database twice exactly if neither merges overlapped nor two workers held one trace |
| TraceRace.RacingMerges | pkg/analyzer/analyzer.go:230-241 | two overlapping merges of answers without duplicates store a span twice |
| TraceRace.RacingStores | pkg/analyzer/analyzer.go:440-445 | two workers that both saw a trace unsent store it twice |
| MissTop.LocalRegister.RecordTraceTime | pkg/componment/redis/local_cache.go:110-112 | overwrites the entry with a new expiry |
| MissTop.LocalRegister.GetTraceTime | pkg/componment/redis/local_cache.go:114-120 | the recorded value, 0 when there is none |
| MissTop.LocalRegister.CheckExpire | pkg/componment/redis/local_cache.go:243-249 | removes exactly the entries past their time |
| MissTop.Analyzer.CacheTrace | pkg/analyzer/analyzer.go:146-171 | top spans mark the register and wait, other spans restart the miss entry and record their time unless a top is marked |
| MissTop.Analyzer.CheckTask | pkg/analyzer/analyzer.go:693-712 | ripe wait entries are sent once each and removed; quiet miss entries are removed and those whose time still stands start to wait |
| MissTop.EntryIsLast | pkg/analyzer/analyzer.go:151-163 | the miss entry is that of the last non-top span and lasts exactly until a pass after its quiet time |
| MissTop.DecisionExact | pkg/analyzer/analyzer.go:702-712 | a firing entry is reported exactly if tops before its span were forgotten and nothing was marked or forgotten since |
| MissTop.DecisionUnexpired | pkg/analyzer/analyzer.go:702-712 | while nothing expires: reported exactly if no top span of the trace was recorded |
| MissTop.WaitIsLast | pkg/analyzer/analyzer.go:166-171 | over every run a trace waits exactly from its last top span or election until a pass comes past its deadline, 60 seconds later for two kinds of tracing and the configured delay for others |
| MissTop.SentIff | pkg/analyzer/analyzer.go:693-700 | a pass sends a trace out exactly if it is the first past the deadline of its last start |
| MissTop.CellIsLast | pkg/componment/redis/local_cache.go:110-120 | the register holds what the last recording span recorded until an expiry comes past the configured time |
| MissTop.ForgetsIff | pkg/componment/redis/local_cache.go:243-249 | when an expiry makes the register forget a trace, in times of events |
| MissTopRace.AloneIsOneStep | pkg/analyzer/analyzer.go:151-163 | the three steps of an undisturbed span are the one step of MissTop |
| MissTopRace.PassAlone | pkg/analyzer/analyzer.go:702-712 | the three steps of an undisturbed pass are its firing: removed, and reported exactly if elected |
| MissTopRace.MarkStandsIff | pkg/analyzer/analyzer.go:147-163 | without expiry the mark of a top span stands exactly if no span that looked before it records after it, and while it stands no pass reports the trace |
| MissTopRace.MarkOverwritten | pkg/analyzer/analyzer.go:158-162 | a mark between look and record is lost |
| MissTopRace.RootlessWinsIff | pkg/analyzer/analyzer.go:702-712 | a pass reports a rootless trace exactly if the last span to enter before its load is the last to record before its comparison |
| MissTopRace.EntryStandsIff | pkg/analyzer/analyzer.go:702-712 | the entry is that of the last span, there exactly until a pass deletes |
| MissTopRace.DropsUncomparedIff | pkg/analyzer/analyzer.go:710-710 | a pass deletes an entry it never compared exactly if another span entered since its load |
| MissTopRace.ReplacedIsLost | pkg/analyzer/analyzer.go:702-712 | the run in which that leaves a rootless trace without a report |
| MissTopRace.OvertakenIsLost | pkg/analyzer/analyzer.go:151-163 | two spans that overtake each other and no report |
| MissTopElection.KeyIsFirst | pkg/componment/redis/redis_client.go:111-114 | the set-if-absent key holds what the first span of its lifetime recorded |
| MissTopElection.WinExact | pkg/componment/redis/redis_api.go:93-99 | a receiver wins exactly if its last non-top span took the key |
| MissTopElection.AtMostOneWinner | pkg/componment/redis/redis_client.go:111-114 | two wins are always separated by an expiry of the key |
| MissTopElection.NobodyWins | pkg/componment/redis/redis_client.go:111-114 | two non-top spans at the winner and nobody reports the trace |
| MissTopElection.LateTopIgnored | pkg/componment/redis/redis_client.go:111-114 | a top span after the key is taken does not stop the winner |
| Histogram.BucketExact | pkg/metrics/vm/vm_histogram.go:95-124 | lower, upper or bucket i by the half-open range (start, end], with the two boundary exceptions |
| Histogram.BucketBounds | pkg/metrics/vm/vm_histogram.go:100-115 | the bounds in numbers: lower below 10^-9, upper from 10^18 on, bucket i for 18th powers in (10^(i-162), 10^(i-161)] |
| Histogram.TenBuckets | pkg/metrics/vm/vm_histogram.go:106-111 | every power of ten ends a bucket, 18 buckets apart, except that 10^-9 begins bucket 0 and 10^18 is upper |
| Histogram.DecimalBuckets | pkg/metrics/vm/vm_histogram.go:100-111 | the same for decimal numbers: 10^-9, 1, 10^9 and 10^18 |
| Histogram.BucketMonotone | pkg/metrics/vm/vm_histogram.go:100-115 | larger values never go to an earlier bucket and every index is below 486 |
| Histogram.ObservedCounts | pkg/metrics/vm/vm_histogram.go:62-72 | each counter is the number of accepted updates in its bucket, the sum is their sum |
| Histogram.ObservedOne | pkg/metrics/vm/vm_histogram.go:92-99 | NaN and negative values leave no trace, any other value counts once |
| Histogram.MergeObserves | pkg/metrics/vm/vm_histogram.go:127-153 | merging is observing the updates of both |
| Histogram.OrderFree | pkg/metrics/vm/vm_histogram.go:95-125 | the histogram depends on the multiset of updates only |
| Histogram.VisitedRows | pkg/metrics/vm/vm_histogram.go:155-182 | every non-empty bucket once, with its counter, in increasing order |
| Histogram.TotalIsAccepted | pkg/metrics/vm/vm_histogram.go:233-258 | the visited counters add up to the accepted updates |
| Histogram.VmHistogram.Update | pkg/metrics/vm/vm_histogram.go:92-125 | the two-level object refines the flat histogram of one more update |
| Histogram.VmHistogram.Merge | pkg/metrics/vm/vm_histogram.go:127-153 | the receiver refines the histogram of both histories, the argument is unchanged, no block is shared |
| Histogram.VmHistogram.Reset | pkg/metrics/vm/vm_histogram.go:75-90 | nothing seen any more, the blocks stay |
| Histogram.VmHistogram.VisitNonZeroBuckets | pkg/metrics/vm/vm_histogram.go:155-182 | the calls of the callback are those of the flat histogram |
| Histogram.VmHistogram.MarshalTo | pkg/metrics/vm/vm_histogram.go:233-258 | the rows of everything seen since the last reset, and its sum and count unless empty |
| ErrorPropagation.Propagation.CollectErrorNodes | pkg/analyzer/report/error_propagation.go:22-48 | appends the rows of the subtree |
| ErrorPropagation.Propagation.Column | pkg/analyzer/report/error_propagation.go:50-120 | one field of every row, in order |
| ErrorPropagation.RowsAreNodes | pkg/analyzer/report/error_propagation.go:22-48 | the rows are the nodes in preorder, each once, with its address as path and its length as depth |
| ErrorPropagation.PathsTellAncestry | pkg/analyzer/report/error_propagation.go:22-48 | paths are distinct, depth is the number of dots, proper prefix means ancestor and conversely |
| Trees.AtBelow | pkg/analyzer/report/error_propagation.go:45-47 | a longer address is a node below the node of a shorter one |
| ErrorPropagation.Reconstruct | pkg/analyzer/report/error_propagation.go:22-48 | shape and node data can be read back from the rows by their paths |
| ErrorPropagation.GetColumns | pkg/analyzer/report/error_propagation.go:50-120 | nine columns of equal length from which the rows can be put together again |
| ErrorPropagation.ColumnsKeepTheTree | pkg/analyzer/report/error_propagation.go:13-120 | from the tree to the columns and back; and in each column the k-th entry is that field of the k-th node in preorder |
| ExternalFactory.ParseDb | pkg/analyzer/external/db.go:18-69 | the name from the stated or parsed operation, table and database, or the span's own |
| ExternalFactory.BuildExact | pkg/analyzer/external/factory.go:46-69 | exactly client, consumer and producer spans become externals; ids and kind are kept, the group follows from kind and attributes |
| ExternalFactory.DbSays | pkg/analyzer/external/db.go:18-69 | name, type and detail of every database call, by what the span states |
| ExternalFactory.OthersSay | pkg/analyzer/external/factory.go:46-69 | name, type, group and detail of every other exit span |
| ExternalFactory.TopUrlOfPath | pkg/analyzer/external/http.go:42-57 | the top of a path is its first element |
| ExternalFactory.TopUrlBehindHost | pkg/analyzer/external/http.go:42-57 | the top of a url is the first element behind the host, or the root |
| ExternalFactory.TopUrlOnce | pkg/analyzer/external/http.go:42-57 | taking it twice is taking it once |
| ExternalFactory.BuildExternals | pkg/analyzer/external/factory.go:31-44 | the externals of entry and then exit spans, in order |
| ExternalFactory.BuildAllHas | pkg/analyzer/external/factory.go:31-44 | an external is listed exactly if some span of the service yields it |
| ExternalFactory.GetDbNameExact | pkg/clickhouse/tables/service_client.go:171-181 | on every text: what it must look like for a given name, or none, to be read from it |
| ExternalFactory.DbNameBack | pkg/clickhouse/tables/service_client.go:171-181 | for every operation, database and table, exactly when the database, or its absence, is read back from the constructed name |
| ExternalFactory.ExternalDbName | pkg/clickhouse/tables/service_client.go:130-144 | the same from every database span, with a stated or parsed operation or none, to the metric label |
| ExternalFactory.WrongDb | pkg/clickhouse/tables/service_client.go:171-181 | the schema of a table is taken for the database, and so are the further words of an operation |
| Topology.GetSideSpanId | pkg/analyzer/report/topology.go:125-135 | the id of the first exit span that calls the service, or none |
| Topology.TopologyNode.AddChild | pkg/analyzer/report/topology.go:108-111 | the last child, with its parent pointer |
| Topology.TopologyNode.GetParentSideExternal | pkg/analyzer/report/topology.go:113-123 | the first external of the parent with the side's span id |
| Topology.CollectChildTopologyNode | pkg/analyzer/report/topology.go:25-31 | fresh linked nodes that represent the topology of the service tree, parent pointers inverse to children |
| Topology.NewTopology | pkg/analyzer/report/topology.go:14-23 | one such tree per service |
| Topology.Isomorphic | pkg/analyzer/report/topology.go:25-31 | same shape and child order as the service tree, every node made from its service and the one above |
| Topology.InfoSays | pkg/analyzer/report/topology.go:50-102 | what a node takes from its sampled trace or its entry span |
| Topology.ServiceAboveIsParent | pkg/analyzer/report/topology.go:25-31 | the service above is the one at the parent's address |
| Relation.Relation.CollectRelationships | pkg/analyzer/report/relation.go:25-29 | the rows of the tree, never none; a second call changes nothing |
| Relation.Relation.CollectRelationship | pkg/analyzer/report/relation.go:46-81 | appends the rows of the subtree, none if the node is not linked |
| Relation.RowsExact | pkg/analyzer/report/relation.go:46-81 | one server row per kept node, one client row per unanswered call of it, nothing else, all paths different |
| Relation.ClientRowsExact | pkg/analyzer/report/relation.go:51-77 | a kept node has one client row, in order, for each external of no consumer kind and without a next span, and the row says who called what |
| Relation.KeptIff | pkg/analyzer/report/relation.go:59-70 | a node is missing exactly when it or an ancestor below the root has no side |
| Relation.LinkedIff | pkg/analyzer/report/topology.go:113-135 | a child has a side exactly if it consumes a message or its first calling exit span has an id that an external of the parent carries |
| Relation.CalledIsLinked | pkg/analyzer/external/factory.go:46-69 | a child called by a client, producer or consumer span with an id is never the reason for pruning |
| Relation.SideIsTheCall | pkg/analyzer/report/topology.go:113-135 | with distinct span ids the side found is the very call |
| Relation.ServerRowIff | pkg/analyzer/report/relation.go:46-81 | from the services: a server row exactly for the services reached link by link |
| Relation.ClientRowIff | pkg/analyzer/report/relation.go:51-77 | from the services: client rows exactly for reached services, one for each client and producer span without a next span, in order |
| Relation.ServerRowSays | pkg/analyzer/report/relation.go:115-153 | from the services: the names in the server row are those of the service, of the one above and of the call between them |
| Relation.ServiceSideIs | pkg/analyzer/report/relation.go:51-61 | that call is the last consumer span, or else the first span above with the id of the first exit span that calls the service |
| MachineInts.SignedDifference | pkg/componment/trace/memory_sampler.go:171-172 | the cast difference of two uint64 is the true one exactly when that fits |
| MemorySampler.OverRateMeans | pkg/componment/trace/memory_sampler.go:171-175 | for reports with rising times whose differences fit: over-rate is memory growth, since the last report or over the window, of at least limit per cache seconds plus one for each second |
| MemorySampler.JudgedMeans | pkg/componment/trace/memory_sampler.go:151-185 | and so when a check finds nothing, the limit exceeded, or samples |
| MemorySampler.DecidedSays | pkg/componment/trace/memory_sampler.go:61-116 | how one check moves the value: taken over, up by one, to the initial value, down by one, or not |
| MemorySampler.RelaxedMeans | pkg/componment/trace/memory_sampler.go:162-165 | while the products fit, the guard is memory below 80 percent of the limit |
| MemorySampler.NodeMemories.CacheMemory | pkg/componment/trace/memory_sampler.go:136-149 | the window is always the last reports received, as many as its size |
| MemorySampler.LastSays | pkg/componment/trace/memory_sampler.go:136-149 | the last reports are a tail of those received, as long as the window allows |
| MemorySampler.NodeMemories.SetNewSampleValue | pkg/componment/trace/memory_sampler.go:151-185 | nothing new, a zero divisor, or exceeded; sampled exactly on every fifth over-rate check since the last reset |
| MemorySampler.NodeMemories.ResetCheckCount | pkg/componment/trace/memory_sampler.go:187-193 | the count of over-rate checks starts again |
| MemorySampler.Sampler.GetSampleValue | pkg/componment/trace/memory_sampler.go:36-49 | the report goes to its node's window, made on first use; the value is the receiver's |
| MemorySampler.Sampler.CheckNodes | pkg/componment/trace/memory_sampler.go:72-81 | whatever the order: exceeded or sampled exactly if some node is, a crash exactly if some node divides by zero |
| MemorySampler.Sampler.CheckSampleValue | pkg/componment/trace/memory_sampler.go:61-116 | the new value from the nodes, the cache and the clock; bounds kept, own value equal to the cached one, counters reset on a change |
| SharedSample.RunBounded | pkg/componment/trace/memory_sampler.go:61-116 | however the reads and writes of several receivers interleave, and whatever writes fail, all values stay within the bounds while the key lives and no read fails |
| SharedSample.MovesBy | pkg/componment/trace/memory_sampler.go:61-116 | how each step of a receiver moves its value and the shared one |
| SharedSample.ExpiryIff | pkg/componment/redis/redis_client.go:116-127 | if the key may expire or reads may fail, that holds exactly when 0 is within the bounds |
| TraceIdPoll.TraceIdCache.Consume | pkg/componment/profile/traceid_cache.go:23-30 | only a new id asks for an index and is stored under it, unless the counter failed |
| TraceIdPoll.TraceIdCache.CleanExpireTraceId | pkg/componment/profile/traceid_cache.go:32-40 | exactly the expired ids leave |
| TraceIdPoll.TraceIdCache.GetTraceIds | pkg/componment/profile/traceid_cache.go:42-58 | each unignored id of the window (start, end] once |
| TraceIdPoll.ProfileServer.QueryProfiles | pkg/componment/profile/profile_server.go:39-76 | the index read before the scans is the new query time and the end of all three windows |
| TraceIdPoll.AtMostOnce | pkg/componment/profile/traceid_cache.go:42-58 | without failed reads no consumption is delivered twice |
| TraceIdPoll.CachedUntil | pkg/componment/profile/traceid_cache.go:23-40 | over every run an id is cached, under its index, from its consumption until a cleaning more than the timeout later |
| TraceIdPoll.DeliveriesExact | pkg/componment/profile/traceid_cache.go:42-58 | over all runs, with failed reads and ids that the agent reports itself: how often a cached id has been delivered |
| TraceIdPoll.OnceIffNoFall | pkg/componment/profile/traceid_cache.go:42-58 | an id whose window is answered came once exactly if the agent never fell behind it |
| TraceIdPoll.ExactlyOnce | pkg/componment/profile/profile_server.go:56-71 | without failed reads every cached id is delivered exactly once when its window is answered and not before, unless it was stored late |
| TraceIdPoll.AtomicNeverLate | pkg/componment/profile/traceid_cache.go:23-30 | with Consume as one step nothing is stored late |
| TraceIdPoll.SplitConsumeLoses | pkg/componment/profile/traceid_cache.go:24-28 | a poll between the two steps of Consume loses the id |
| TraceIdPoll.FailureRepeatsAll | pkg/componment/redis/redis_client.go:82-93 | after a failed read of the counter the next poll repeats every cached id |
| MutatedType.MetricCache.GetMetricValue | pkg/componment/onoffmetric/metric_cache.go:127-146 | the service's entry or else the url's, yesterday before the last hour |
| MutatedType.MetricCache.StoreLastHourMetrics | pkg/componment/onoffmetric/metric_cache.go:97-125 | the merged map, key by key, in any order |
| MutatedType.SmallerKept | pkg/componment/onoffmetric/metric_cache.go:97-125 | the smaller total is kept, the old entry on a tie |
| MutatedType.OthersStored | pkg/componment/onoffmetric/metric_cache.go:97-125 | a key of yesterday stays as it was, a new key is taken |
| MutatedType.TotalOfEight | pkg/componment/onoffmetric/metric_cache.go:270-285 | what is compared is the sum of the eight values |
| MutatedType.LookupSays | pkg/componment/onoffmetric/metric_cache.go:127-146 | which entry and range text a lookup gives, by the keys that are there |
| MutatedType.MetricStrBack | pkg/componment/onoffmetric/metric_cache.go:259-268 | splitting and parsing the base text gives the base values back |
| MutatedType.CalcMutatedType | pkg/componment/onoffmetric/metric_cache.go:301-328 | the first type with the largest positive excess over its base, unknown if none, with the base text and range of the lookup |
| MutatedType.ExcessSays | pkg/componment/onoffmetric/metric_cache.go:301-328 | which field and base a resource is read from, and that the excess is what the value has above the base |
| MutatedType.NamesAre | pkg/clickhouse/tables/span_trace.go:230-261 | the names of the resources in their order |
| MutatedType.CalcMutatedTypes | pkg/clickhouse/tables/span_trace.go:230-261 | the differences per type, or a failure on too few fields |
| MutatedType.RunqDecides | pkg/componment/onoffmetric/metric_cache.go:318-327 | reading the run queue from another field gives the same type exactly if it leads in both or in neither |
| MutatedType.ComputationsAgree | pkg/clickhouse/tables/span_trace.go:230-261 | on any text: when each computation fails; from nine fields on, exactly when the reported type is the first with the largest positive stored difference; always with nine, and then unknown exactly if all are 0 |
| MutatedType.TenFieldsPart | pkg/componment/onoffmetric/metric_cache.go:318-319 | a text of ten fields on which the two part |
| DrainQueue.Queue.Append | pkg/clickhouse/cache.go:46-111 | the values go to the end and no batch handed out before changes |
| DrainQueue.Queue.Drain | pkg/clickhouse/cache.go:119-124 | hands out the first size values and keeps the rest, fails exactly if size exceeds the length |
| DrainQueue.Queue.GetToSend | pkg/clickhouse/cache.go:113-125 | one drainer gets exactly what was there at its unlocked read, whatever is stored before it has the lock |
| DrainQueue.FifoExactlyOnce | pkg/clickhouse/cache.go:46-265 | batches in order and live queue together are everything stored |
| DrainQueue.OneDrainerNeverFails | pkg/clickhouse/cache.go:113-125 | with one drainer the length read is still there |
| DrainQueue.FailsIff | pkg/clickhouse/cache.go:114-124 | a drain fails exactly if others drained more since its read than was stored since |
| DrainQueue.SecondDrainerFails | pkg/clickhouse/cache.go:114-124 | two drainers that read the same length |
| Text.ParseDec | pkg/clickhouse/tables/span_trace.go:251-252 | parsing undoes %d on every 64-bit value |
| Text.ParseBad | pkg/clickhouse/tables/span_trace.go:251-252 | a number followed by anything else gives 0, a longer one the largest |
| Text.SplitJoin | pkg/clickhouse/tables/span_trace.go:235-236 | splitting undoes joining when no part holds the separator |
| Text.DottedPrefix | pkg/analyzer/report/error_propagation.go:23 | one path text is a prefix of another exactly when one index list is |
| Text.DottedDots | pkg/analyzer/report/error_propagation.go:23 | a path text has as many dots as indexes |

## Left out

- Prometheus metrics and simplelru are taken by their contract; the Prometheus histogram, used with another storage type, is not modelled.
- Registration of metric definitions, and the constructor error for a cache size that is not positive: one definition with a positive size is modelled.
- Text: a character of a text stands for a byte of the source's strings, so a length is a number of bytes.
- Floating point: histogram values, sums and bounds are reals, without +Inf; the range labels and number formats are not modelled.
- Counters: the histogram counters, the totals of slow reports and the trace index are unbounded, where the source wraps after 2^64 or 2^63 steps.
- SilentSwitch.SignalCache.AddSignal: does not model the profile signal that is stored for the agent, which is a plain queue.
- TaskScheduler.ReportAnalyzer.ProcessTask: the outcome of building a report is an input; the contents of reports and drop records are not modelled.
- TraceStore.MergeTraces: AddTrace of the apo-module is taken to append; the flags and counts that it keeps beside the list are not modelled.
- SilentScan.RestExact: one poll at a time per node, as one agent polls it; what sync.Map does within one lookup, store or delete is one step.
- TraceRace.StoredOnceIff: an append to the shared Go slice is one step; two appends that lose one another are not modelled.
- MissTopElection.AtMostOneWinner: the redis register is a value with atomic steps, since redis itself is not part of this model; its expiry is an event without a clock.
- Topology.NewTopology: what GetMatchSampledSpanTrace, GetEntrySpan, MatchEntrySpan and the span accessors answer is given with the service, because the apo-module sources are not part of this model.
- Relation.Relation.CollectRelationship: the log line for a missing side, and CollectExternalNodes, which only filters the nodes in preorder.
- TraceIdPoll.ExactlyOnce: one agent and one cache; other caches appear as steps of the shared counter, the expiry of an id as an event without a clock.
- MutatedType.CalcMutatedType: only the P90 latency type, the one that is used.
- SharedSample.RunBounded: the lock with which redis elects the receiver that lowers the value is not modelled; any receiver may.
- The subscription loops of the local cache and SignalList drain their slices as the send queues do; they have no model of their own.
- Clients of gRPC, HTTP, ClickHouse and Kubernetes, SQL, configuration and generated code.
