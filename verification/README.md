# Exporter verification

A Dafny model of the stateful core of the exporter framework, with proofs of what that core
promises. `dafny verify dfyconfig.toml` checks the whole project.

- **Snapshot collector** (`SnapshotProtocol.dfy`, `SnapshotRuns.dfy`, `SnapshotClocks.dfy`,
  `SnapshotTraces.dfy`, `SnapshotCollector.dfy`, `Histogram.dfy`). Any number of scrapes and
  restartable refresh loops share one cached snapshot under a mutex and a condition variable. The
  protocol is a transition system whose steps are the critical sections and the moments between
  them; a run is any sequence of enabled steps. The proofs cover all runs: reads are linearizable,
  one refresh is in flight at a time, no wake-up is lost and no scrape can be stuck, retries are
  bounded, at most one loop is live, a running loop shields the source, and scrapes alone are rate
  limited. The collector itself is a class; each of its critical sections is proved to be one step
  of the transition system, and whole scrapes and refresh loops are proved with arbitrary steps of
  other threads between their critical sections: the collector carries the run that led to its
  state, and each method states exactly the steps its own thread took in it. Clock readings are
  arbitrary; for readings that never decrease it is proved exactly when stored attempt times do
  not.
- **TTL cache** (`TtlCache.dfy`, `TtlCacheProtocol.dfy`). The cache object is proved against its
  history of writes; a second transition system interleaves the locked sections and the counter
  updates that happen outside the lock, and numbers the stores so that each can be followed to
  what became of it.
- **Last known good** (`LastKnownGood.dfy`). The entries are a fold over events; the fold is proved
  equal to what the history of a key says by itself.
- **Make variables** (`MakeVariables.dfy`, `MakeLimits.dfy`). The rewrite loop over `$(NAME)`
  references, with the exact condition under which its rounds follow the references and, under it,
  the exact condition under which it ends and the recursive expansion it then computes.
- **Symbol diff** (`SymbolDiff.dfy`, `SymbolOutput.dfy`). The report, the line diff and the printed
  output, with the readers that recover the inputs.
- **Metric descriptors** (`FeatureMetrics.dfy`). The loader and the three spec generators.
- **Batch registration** (`CollectorRegistration.dfy`). Registration with rollback, then start,
  against an abstract registry.

Times, durations and counters are unbounded integers; 0 stands for the zero time. A ghost history
(`stores`, `writes`, `fates`, `trace`) is written by the steps; phases may note how long it was or
number a store by it, but no entry, counter or answer depends on it.

Where the source keeps state in fields, the model is a class whose methods state their whole new
state through the functions the lemmas are about (`Stored`, `After`, `LineDiff`, ...). Panics and
fatal errors are results. Go maps are visited in an arbitrary order, which the loops model by
picking any remaining key.

Three promises have limits, and each limit is stated as an exact condition with an input that
shows it:

- A loop samples the time of a tick before it takes the lock, so a scrape that sampled later can
  store first. With a forward clock this can only make the second store older than the first
  (`AttemptsGoBackIffOvertaken`, `LoopMayStoreOlderAttempt`), and a caller rules it out by letting
  no scrape arrive before the first store (`LateScrapesKeepOrder`).
- Under a clock that goes back, the cache loses an entry that some call found expired
  (`AnswersUnlessEvicted`, `BackwardClockLosesLiveEntry`). The exported constructor passes
  `time.Now`, whose comparisons are monotonic (`exporter/featurekit/ttl_cache.go:41-43`), so this
  needs an injected clock.
- Replacing inside Make text can put a reference together from a `$` and what follows it, and then
  even acyclic references need not end (`AcyclicTextMayLoopForever`). The rounds of the loop are
  passes over the references exactly as long as no `$` of the passed text begins a new reference
  (`TextIterateIsIterate`); then the loop ends exactly for acyclic references, with the full
  expansion (`EndsIffAcyclic`, `EndIsExpanded`). It is enough that each `$` of the text and of the
  variables begins a reference or is ruled out by its own following characters, as in
  `$(shell pwd)` or `$$HOME` (`CleanPasses`).

## Model

| member | source | states |
|---|---|---|
| SnapshotRuns.LinearizableRead | exporter/internal/snapshot/snapshot.go:237-273 | In every interleaving, what a scrape returns is the fold of one non-empty prefix of the run's stores (snapshot, status, last success, histogram together), that prefix was the whole history at an instant inside the call, and the read was fresh, loop-backed or the scrape's own refresh |
| SnapshotRuns.ReturnIsARead | exporter/internal/snapshot/snapshot.go:237-273 | The step that ends a scrape was taken by an active scrape, leaves it with the guarded view at that moment, and never returns an uninitialised state |
| SnapshotRuns.StepKeepsPast | exporter/internal/snapshot/snapshot.go:295-308 | No step shortens the history of stores, and finished scrapes and exited loops never change again |
| SnapshotRuns.BegunAreRecorded | exporter/internal/snapshot/snapshot.go:253-267 | At every moment the refreshes begun are the histogram count plus one if a refresh is in flight; the count is the number of stores |
| SnapshotRuns.StepBegins | exporter/internal/snapshot/snapshot.go:275-293 | Each step changes stores-plus-in-flight by exactly the refreshes it begins |
| SnapshotRuns.ScheduledStepProgresses | exporter/internal/snapshot/snapshot.go:245-270 | No deadlock: an unfinished scrape, or the refresh it waits for, always has an enabled step, and that step strictly decreases the distance to the return whatever the clock, snapshot and status are |
| SnapshotRuns.HolderAdvances | exporter/internal/snapshot/snapshot.go:245-293 | While a scrape sleeps there is a refresh in flight; its next step is enabled and brings the sleeper closer to its return |
| SnapshotRuns.SleepAdvances | exporter/internal/snapshot/snapshot.go:245-248 | Falling asleep leaves the refresh in flight untouched and is progress |
| SnapshotRuns.CompletesWithin | exporter/internal/snapshot/snapshot.go:237-273 | Running the schedule for as many steps as the distance finishes the scrape |
| SnapshotRuns.ScrapeCanAlwaysFinish | exporter/internal/snapshot/snapshot.go:237-273 | From every reachable state every unfinished scrape can return within seven steps of itself and of the refresh in flight |
| SnapshotRuns.RetryBound | exporter/internal/snapshot/snapshot.go:238-252 | The times a call goes round the outer loop, plus the one a woken call is about to make, never exceed the refreshes that finished since the call arrived |
| SnapshotRuns.CallIsBounded | exporter/internal/snapshot/snapshot.go:237-273 | In every run, the steps a call has taken, plus those it can still take before it returns or sleeps, are at most three and four more for each refresh that finished since it arrived |
| SnapshotRuns.StepUsesOne | exporter/internal/snapshot/snapshot.go:237-273 | Each step of a call uses up one of the steps it has left; only a finishing refresh gives it more |
| SnapshotClocks.FreshReadingIsServed | exporter/internal/snapshot/snapshot.go:238-252 | A scrape whose new reading is within the interval of the last attempt is served at its next look, however many refreshes are stored in between, as long as attempt times do not go back; it needs no further retry |
| SnapshotRuns.StepRetries | exporter/internal/snapshot/snapshot.go:245-252 | A retry uses up a wake-up, and only a finishing refresh produces one |
| SnapshotRuns.ExitedLoopIsSilent | exporter/internal/snapshot/snapshot.go:214-220 | A loop that recorded its exit never begins or stores a refresh again |
| SnapshotRuns.OneLoopAtATime | exporter/internal/snapshot/snapshot.go:161-174 | In every reachable state at most one spawned loop has not recorded its exit; while there is one the flag is set and `Start` changes nothing |
| SnapshotRuns.BackgroundShieldsSource | exporter/internal/snapshot/snapshot.go:237-255 | While a loop stays recorded as running, scrapes begin at most one refresh, and none once a refresh has begun |
| SnapshotRuns.StepBudget | exporter/internal/snapshot/snapshot.go:240-255 | In background mode a scrape begins a refresh only if none was stored or in flight, and only a recorded exit ends background mode |
| SnapshotRuns.NobodyScrapesBeforeArriving | exporter/internal/snapshot/snapshot.go:237-255 | Before the first scrape arrives no refresh is begun by a scrape |
| SnapshotRuns.ScrapesOfAShieldedRun | exporter/internal/snapshot/snapshot.go:161-174 | If the loop is running before the first scrape and never exits, the scrapes of the whole run begin at most one refresh |
| SnapshotRuns.PacedKept | exporter/internal/snapshot/snapshot.go:240-254 | Without a loop every step keeps the spacing of stored attempts and of the attempt in flight |
| SnapshotRuns.ScrapesArePaced | exporter/internal/snapshot/snapshot.go:240-254 | In every run without `Start`, each refresh is at least the interval after the attempt stored before it, for any clock and any number of scrapes |
| SnapshotRuns.SpacedSpan | exporter/internal/snapshot/snapshot.go:240-308 | Spacing adds up over any stretch of stores |
| SnapshotRuns.RateLimit | exporter/internal/snapshot/snapshot.go:237-308 | If the status function leaves the attempt time unset or echoes the refresh time, the stored attempts number a and b are at least (b - a) intervals apart |
| SnapshotRuns.LastSuccessIsAnAttempt | exporter/internal/snapshot/snapshot.go:300-302 | The last-success time is the attempt time of the last successful store |
| SnapshotRuns.LastSuccessNeverGoesBack | exporter/internal/snapshot/snapshot.go:295-308 | Under the same conditions the last-success time, once there is one, never decreases |
| SnapshotClocks.OnlySecondStoreMayBeOlder | exporter/internal/snapshot/snapshot.go:176-308 | With readings that never decrease and statuses that echo the refresh time, in every run with any scrapes, loops and restarts the third and every later store is at least as late as the one before it |
| SnapshotClocks.AttemptsGoBackIffOvertaken | exporter/internal/snapshot/snapshot.go:176-308 | Under the same conditions attempt times go back in a run if and only if a scrape took the flag, before anything was stored, while a loop tick with an earlier reading was pending, and that tick became the second store |
| SnapshotClocks.LateScrapesKeepOrder | exporter/internal/snapshot/snapshot.go:176-308 | If no scrape arrives before the first store, attempt times never go back, whatever loops are started and stopped |
| SnapshotClocks.LastSuccessKeepsOrder | exporter/internal/snapshot/snapshot.go:295-308 | Unless a tick was overtaken, the last-success time, once there is one, never decreases, with or without loops |
| SnapshotClocks.OvertakenIsOlder | exporter/internal/snapshot/snapshot.go:227-293 | An overtaken tick is stored second, with an earlier time than the first store |
| SnapshotClocks.RefreshBecomesStore | exporter/internal/snapshot/snapshot.go:253-293 | A refresh that was begun is the next store, with the time it was begun with |
| SnapshotClocks.ScrapeRefreshesStale | exporter/internal/snapshot/snapshot.go:240-254 | A scrape begins a refresh of a filled cache only without a live loop and with a reading later than the last attempt |
| SnapshotClocks.ScrapeBesideLoopIsFirst | exporter/internal/snapshot/snapshot.go:240-254 | While a tick is pending a scrape begins a refresh only if nothing is stored |
| SnapshotClocks.ReadingsBoundState | exporter/internal/snapshot/snapshot.go:176-223 | Nothing in a state is later than the latest reading |
| SnapshotClocks.SettledKept | exporter/internal/snapshot/snapshot.go:207-308 | Every step keeps: after two stores nothing pending is older than the last attempt; after one, no scrape refresh is, nor is a tick beside it older than the scrape |
| SnapshotClocks.ExplainedKept | exporter/internal/snapshot/snapshot.go:207-308 | Every step keeps: what is pending and older than what it would follow was overtaken by a scrape |
| SnapshotClocks.LoopMayStoreOlderAttempt | exporter/internal/snapshot/snapshot.go:207-225 | A run on a forward clock with one loop and one scrape in which the last-success time goes from 20 back to 10: the tick was read at 10, before the lock, and stored after the scrape that read 20 |
| SnapshotProtocol.StoredReflects | exporter/internal/snapshot/snapshot.go:295-317 | Storing a refresh turns the fold of a history into the fold of the history extended by it |
| SnapshotProtocol.ReflectionIsUnique | exporter/internal/snapshot/snapshot.go:310-317 | A history of stores determines the whole view |
| SnapshotProtocol.SingleFlightKept | exporter/internal/snapshot/snapshot.go:253-293 | Every step keeps: the in-flight flag is set exactly while one thread is between begin and finish |
| SnapshotProtocol.InFlightIsUnique | exporter/internal/snapshot/snapshot.go:275-293 | Two threads between begin and finish are the same thread, and the flag is set |
| SnapshotProtocol.SingleLoopKept | exporter/internal/snapshot/snapshot.go:161-220 | Every step keeps: the background flag is set exactly while one spawned loop has not recorded its exit |
| SnapshotProtocol.NoLostWakeupKept | exporter/internal/snapshot/snapshot.go:245-293 | Every step keeps: a thread asleep on the condition variable implies a refresh in flight |
| SnapshotProtocol.ShowsHistoryKept | exporter/internal/snapshot/snapshot.go:295-317 | Every step keeps: the guarded fields are the fold of the stores, and `initialized` says whether there are any |
| SnapshotProtocol.NonNegativeDurationsKept | exporter/internal/snapshot/snapshot.go:319-327 | Every step keeps all recorded and pending durations non-negative, whatever the clock does |
| SnapshotProtocol.InvKept | exporter/internal/snapshot/snapshot.go:161-317 | The conjunction of the five invariants is inductive over all steps |
| SnapshotProtocol.ReachableInv | exporter/internal/snapshot/snapshot.go:161-317 | Every state of every run satisfies the five invariants |
| SnapshotProtocol.FinishEffect | exporter/internal/snapshot/snapshot.go:265-293 | Finishing a refresh appends exactly its store, and the new view is the fold of the new history |
| SnapshotProtocol.OtherStepRelied | exporter/internal/snapshot/snapshot.go:237-293 | A step of another thread only extends the history, leaves this thread's phase alone except for waking it after a store, and never stores while this thread holds the flag |
| SnapshotProtocol.OthersStayWithinRely | exporter/internal/snapshot/snapshot.go:237-293 | The same over any number of steps of any other threads |
| SnapshotTraces.DropMeansBusy | exporter/internal/snapshot/snapshot.go:275-284 | In every run a loop drops a tick exactly when another thread is refreshing, and begins a refresh exactly when none is |
| SnapshotTraces.FinishedRefreshShows | exporter/internal/snapshot/snapshot.go:256-308 | In every run, from the return of the snapshotter to the store: a reported attempt other than 0 is the attempt shown, an unset one shows the refresh time, success is as reported, and the sum of durations grows by the time between start and end, or not at all if the clock went back |
| SnapshotTraces.StoppedMeansCancelled | exporter/internal/snapshot/snapshot.go:208-220 | A loop stops, or skips its first refresh, only after its context was cancelled |
| SnapshotTraces.GrewRely | exporter/internal/snapshot/snapshot.go:237-293 | While a thread takes no step of its own, what other threads did stays within what it may rely on |
| SnapshotTraces.NoOwnSteps | exporter/internal/snapshot/snapshot.go:237-293 | A stretch without own steps of a thread holds none at any place |
| SnapshotCollectors.SnapshotCollector.constructor | exporter/internal/snapshot/snapshot.go:83-149 | A new collector is in the initial protocol state; a non-positive interval becomes the default |
| SnapshotCollectors.SnapshotCollector.SnapshotStateLocked | exporter/internal/snapshot/snapshot.go:310-317 | The returned state shows the guarded view and shares no storage with the collector |
| SnapshotCollectors.SnapshotCollector.StoreSnapshotLocked | exporter/internal/snapshot/snapshot.go:295-308 | A reported attempt time is kept, an unset one becomes the refresh time, success is as reported and moves the last-success time, the histogram grows by the duration; together the guarded fields are those of the protocol store |
| SnapshotCollectors.SnapshotCollector.LookAtTop | exporter/internal/snapshot/snapshot.go:239-254 | Served exactly if the cache is filled and a loop runs or the attempt is younger than the interval, otherwise waiting exactly if a refresh is in flight, otherwise taking the flag; one protocol step of the scrape, and a served state is the fold of a non-empty history |
| SnapshotCollectors.SnapshotCollector.FinishScrape | exporter/internal/snapshot/snapshot.go:265-271 | One finish step that clears the flag and leaves no thread asleep; the returned state shows what was reported and is the fold of the history including this refresh |
| SnapshotCollectors.SnapshotCollector.BeginRefresh | exporter/internal/snapshot/snapshot.go:275-284 | Takes the flag exactly when it was clear |
| SnapshotCollectors.SnapshotCollector.FinishRefresh | exporter/internal/snapshot/snapshot.go:286-293 | One finish step that stores the refresh, clears the flag and leaves no thread asleep |
| SnapshotCollectors.SnapshotCollector.Start | exporter/internal/snapshot/snapshot.go:161-174 | Spawns a loop exactly when none is recorded as running |
| SnapshotCollectors.SnapshotCollector.RecordExit | exporter/internal/snapshot/snapshot.go:216-220 | The flag is cleared in the step in which the loop ends |
| SnapshotCollectors.SnapshotCollector.AwaitRefresh | exporter/internal/snapshot/snapshot.go:245-251 | The scrape sleeps, sleeps again after each wake-up that finds the flag set, and takes a new reading as soon as it finds it clear, with at least one more store; it stops earlier only when a wait was not seen to end or the patience is used up |
| SnapshotCollectors.SnapshotCollector.CollectSnapshot | exporter/internal/snapshot/snapshot.go:319-327 | However other threads run, the duration is the time that went by, or nothing if the clock went back; nothing is stored meanwhile |
| SnapshotCollectors.SnapshotCollector.CollectAndStore | exporter/internal/snapshot/snapshot.go:256-271 | However other threads run meanwhile, exactly this refresh is appended to the history, and the result shows the reported status, the refresh time only for an unset attempt, and a histogram larger by the time that went by |
| SnapshotCollectors.SnapshotCollector.Round | exporter/internal/snapshot/snapshot.go:238-272 | One round of the loop takes exactly the steps of being served, of falling asleep, or of its own refresh, and answers with the fold of the whole non-empty history, which is loop-backed, younger than the interval at the reading, or ends in the scrape's own refresh |
| SnapshotCollectors.SnapshotCollector.CurrentSnapshot | exporter/internal/snapshot/snapshot.go:237-273 | With other threads running between all critical sections, the scrape takes exactly the steps of its rounds of waiting and then of being served or refreshing; the result is the fold of the whole non-empty history at the return, justified at the last reading, and each retry is matched by a further store |
| SnapshotCollectors.SnapshotCollector.Refresh | exporter/internal/snapshot/snapshot.go:227-235 | A tick is dropped exactly when a refresh is in flight; otherwise the loop begins, collects and stores, and exactly its own result is appended |
| SnapshotCollectors.SnapshotCollector.OnTick | exporter/internal/snapshot/snapshot.go:221-223 | The loop takes exactly the steps of a tick that it stores or drops; if stored, the history ends in the tick's own result |
| SnapshotCollectors.SnapshotCollector.FirstRefresh | exporter/internal/snapshot/snapshot.go:208-210 | A loop whose context is already cancelled skips the first refresh and leaves the history as it is; otherwise it takes the steps of a tick |
| SnapshotCollectors.SnapshotCollector.OnDone | exporter/internal/snapshot/snapshot.go:216-220 | The loop sees the cancellation and records its exit, in exactly these steps; the flag is clear and the history intact |
| SnapshotCollectors.SnapshotCollector.RefreshLoop | exporter/internal/snapshot/snapshot.go:207-225 | From spawn to exit the loop takes exactly the steps of its first refresh, of every tick in order, stored or dropped, and of its exit; the refreshes counted are stores made meanwhile, one for one the results of the stored ticks |
| Histograms.ObserveExtendsHistory | exporter/internal/snapshot/snapshot.go:359-369 | Observing incrementally keeps every bucket equal to the number of recorded durations at or below its bound, and count and sum equal to those of the history |
| Histograms.CountCoveredSnoc | exporter/internal/snapshot/snapshot.go:363-368 | One more duration adds one to exactly the bounds that cover it |
| Histograms.HistogramIsUnique | exporter/internal/snapshot/snapshot.go:342-346 | A history determines its histogram |
| Histograms.BucketsAreCumulative | exporter/internal/snapshot/snapshot.go:359-369 | Buckets are non-decreasing in the bound and the +Inf bucket is the count |
| Histograms.BucketsCountDurations | exporter/internal/snapshot/snapshot.go:359-369 | The bucket of each configured bound is the number of recorded durations at or below it, the +Inf bucket their number |
| Histograms.BucketTable.Fill | exporter/internal/snapshot/snapshot.go:349-353 | Exactly the configured bounds and +Inf are present, all zero |
| Histograms.BucketTable.Bump | exporter/internal/snapshot/snapshot.go:363-368 | The loop over strictly increasing bounds bumps each covering bucket once |
| Histograms.BucketTable.CopyFrom | exporter/internal/snapshot/snapshot.go:377-379 | The copy holds the same cells |
| Histograms.DurationHistogram.constructor | exporter/internal/snapshot/snapshot.go:348-357 | A new histogram shows the empty history |
| Histograms.DurationHistogram.Observe | exporter/internal/snapshot/snapshot.go:359-369 | The object observes as the specification does |
| Histograms.DurationHistogram.Clone | exporter/internal/snapshot/snapshot.go:371-381 | The clone has the same value and only fresh storage |
| Histograms.CloneThenObserve | exporter/internal/snapshot/snapshot.go:371-381 | A clone goes on showing the history it was taken at while the original shows that history extended by the durations observed |
| TtlHistory.CurrentIsLastStore | exporter/featurekit/ttl_cache.go:56-129 | The history function yields an item exactly when it is that of the last effective store with no later write, deletion or clear of the key |
| TtlHistory.WriteKeepsAgreement | exporter/featurekit/ttl_cache.go:93-129 | Each write keeps the cache in agreement with the history extended by it |
| TtlHistory.EvictionKeepsAgreement | exporter/featurekit/ttl_cache.go:76-81 | Dropping expired entries, any of them at any time, keeps the agreement |
| TtlHistory.AgreeAnswers | exporter/featurekit/ttl_cache.go:62-74 | A cache that agrees with the history answers as the history does |
| TtlCaches.CallsTell | exporter/featurekit/ttl_cache.go:56-151 | For any clock, after any calls: an entry is held, as it was stored, exactly when the history has a last store of the key that no lookup of the key or size query has since found expired |
| TtlCaches.AnswersUnlessEvicted | exporter/featurekit/ttl_cache.go:56-151 | For any clock, a lookup answers as the history does, except if and only if the history still has a live entry that some lookup or size query since its store found expired |
| TtlCaches.EvictedIsExpired | exporter/featurekit/ttl_cache.go:62-84 | With a non-decreasing clock what was found expired stays expired |
| TtlCaches.CallsAgreeWithHistory | exporter/featurekit/ttl_cache.go:56-151 | After any calls with a non-decreasing clock the cache agrees with the history of writes |
| TtlCaches.GetFollowsHistory | exporter/featurekit/ttl_cache.go:56-84 | After any such calls `Get(k)` at t answers v if and only if the last effective store to k wrote v, nothing later deleted or cleared it, and t is before its expiry |
| TtlCaches.GetFollowsCalls | exporter/featurekit/ttl_cache.go:56-151 | The same in terms of the calls alone, deletions, clears and lifetimes spelled out; and a size query keeps exactly the keys with such a store |
| TtlCaches.ReadsAreTransparent | exporter/featurekit/ttl_cache.go:56-151 | Two call sequences with the same writes give the same answers and sizes |
| TtlCaches.InsertedLeavesNoTrace | exporter/featurekit/ttl_cache.go:56-151 | Inserting a lookup, a size query or a store with a non-positive lifetime anywhere leaves the history of writes and its timing as they were |
| TtlCaches.InsertedReadIsInvisible | exporter/featurekit/ttl_cache.go:56-151 | Such a call, inserted anywhere, changes no later answer and no later size |
| TtlCaches.LenCountsLiveKeys | exporter/featurekit/ttl_cache.go:131-151 | What a size query keeps, and counts, is exactly the keys a lookup would find |
| TtlCaches.BackwardClockLosesLiveEntry | exporter/featurekit/ttl_cache.go:69-81 | The input for the exception: an entry evicted at reading 20 is missing when the clock then reads 5, at which the history holds it live |
| TtlCaches.TtlCache.constructor | exporter/featurekit/ttl_cache.go:45-54 | A new cache is empty and has counted nothing |
| TtlCaches.TtlCache.Recheck | exporter/featurekit/ttl_cache.go:76-81 | The entry goes only if its expiry is the one seen, and each removal is counted once |
| TtlCaches.TtlCache.Get | exporter/featurekit/ttl_cache.go:56-84 | Answer, remaining entries and counters after a lookup |
| TtlCaches.TtlCache.Set | exporter/featurekit/ttl_cache.go:86-91 | Stores with the default lifetime |
| TtlCaches.TtlCache.SetWithTTL | exporter/featurekit/ttl_cache.go:93-105 | Stores, and counts, exactly when the lifetime is positive |
| TtlCaches.TtlCache.Delete | exporter/featurekit/ttl_cache.go:107-118 | Removes the key; the counter moves by the entries removed |
| TtlCaches.TtlCache.Clear | exporter/featurekit/ttl_cache.go:120-129 | Empties the cache and counts one clear |
| TtlCaches.TtlCache.Len | exporter/featurekit/ttl_cache.go:131-151 | The purge loop removes exactly the expired entries in any visiting order, counts each once, and returns what is left |
| TtlCaches.TtlCache.Stats | exporter/featurekit/ttl_cache.go:153-167 | Reports the live entries after the purge and the counters including it |
| TtlCacheProtocol.StepsMatchObject | exporter/featurekit/ttl_cache.go:56-151 | The concurrent steps change the entries as the object's methods do |
| TtlCacheProtocol.InvKept | exporter/featurekit/ttl_cache.go:56-151 | Placement of stores, counter accounts, what each call between two locks may rely on, and agreement with the history are kept by every step |
| TtlCacheProtocol.ReachableInv | exporter/featurekit/ttl_cache.go:56-151 | Every state of every interleaving satisfies that invariant |
| TtlCacheProtocol.StepEvolves | exporter/featurekit/ttl_cache.go:56-151 | Whatever a step does, an entry present afterwards was there unchanged or is a newer store that has not expired |
| TtlCacheProtocol.RemovalIsSafe | exporter/featurekit/ttl_cache.go:62-84 | No interleaving lets the recheck of a lookup or the purge of a size query, with its time sampled before the lock, remove an entry that is live or was stored after the remover looked |
| TtlCacheProtocol.RemovalBy | exporter/featurekit/ttl_cache.go:76-81 | A removing recheck removes the very store it saw; a removing purge one issued before it sampled its time |
| TtlCacheProtocol.EvictedAreExpired | exporter/featurekit/ttl_cache.go:62-81 | Only entries expired at the current clock are evicted |
| TtlCacheProtocol.EntriesAreConserved | exporter/featurekit/ttl_cache.go:93-150 | In every reachable state, sets counted or owed equal live entries plus overwritten, deleted, expired (counted or owed) and dropped ones |
| TtlCacheProtocol.FateIsFinal | exporter/featurekit/ttl_cache.go:76-150 | A store that left the cache never changes how it left, so none is counted as expired twice |
| TtlCacheProtocol.FatesMove | exporter/featurekit/ttl_cache.go:93-150 | A step adds to a fate exactly the entries it removed, and one store per effective set |
| TtlCacheProtocol.FatesAddUp | exporter/featurekit/ttl_cache.go:93-150 | Every store has exactly one fate |
| TtlCacheProtocol.LiveStoresAreKeys | exporter/featurekit/ttl_cache.go:93-150 | The live stores are as many as the keys |
| TtlCacheProtocol.LookupsAreCountedOnce | exporter/featurekit/ttl_cache.go:62-84 | At every moment the hits are the finished lookups with a value, the misses those without, and the clears the finished clears |
| TtlCacheProtocol.LookupsAreHitsOrMisses | exporter/featurekit/ttl_cache.go:62-84 | Hits plus misses are the finished lookups |
| TtlCacheProtocol.HitsHeldLiveEntries | exporter/featurekit/ttl_cache.go:62-84 | A finished lookup has a value exactly if at an instant inside the call the history held a store of its key that nothing undid and that had not expired, and the value is that of the store |
| TtlCacheProtocol.CountersBalanceAtRest | exporter/featurekit/ttl_cache.go:93-150 | When no call is in progress nothing is owed: the set, delete and expiry counters balance with the live entries and the numbers of overwritten and dropped stores, which the cache itself does not count |
| TtlCacheProtocol.ReadHappened | exporter/featurekit/ttl_cache.go:62-74 | A lookup past its read carries the history and clock of one step of its own |
| TtlCacheProtocol.LookupsAreLinearizable | exporter/featurekit/ttl_cache.go:56-84 | Every finished lookup answered what the write history dictated at one instant inside the call, at that clock |
| TtlCacheProtocol.PurgeLeaves | exporter/featurekit/ttl_cache.go:136-145 | A purge leaves every key live when it holds the lock, and only keys live as of its earlier reading |
| TtlCacheProtocol.PurgeHappened | exporter/featurekit/ttl_cache.go:131-151 | The size a query answers is what one purge of its own left, with a time sampled at a step before it |
| TtlCacheProtocol.SizesAreBracketed | exporter/featurekit/ttl_cache.go:131-151 | In every interleaving the size lies between the number of keys the history holds live at the purge and the number it then holds live as of the sampled time |
| LastKnownGoods.FailuresTellHistory | exporter/featurekit/last_known_good.go:60-71 | The counter is the number of failures of the key that no success or deletion followed |
| LastKnownGoods.SuccessTellsHistory | exporter/featurekit/last_known_good.go:45-58 | Value and success time are those of the last success not undone by a deletion, and only such a success makes data available |
| LastKnownGoods.GetTellsHistory | exporter/featurekit/last_known_good.go:83-95 | After any events `Get` reports the last success since the last deletion, the failures since then, the time of the last event unless that deleted the key, and zero values without one |
| LastKnownGoods.LastAttemptTellsHistory | exporter/featurekit/last_known_good.go:45-81 | A key is held exactly when its last event is no deletion, and the last attempt is the time of that event |
| LastKnownGoods.OwnEventsSuffice | exporter/featurekit/last_known_good.go:45-95 | A key's entry is that of its own events alone |
| LastKnownGoods.KeysDoNotInterfere | exporter/featurekit/last_known_good.go:45-95 | Histories with the same events for a key give it the same answer, however other keys are interleaved |
| LastKnownGoods.StaleFromAMoment | exporter/featurekit/last_known_good.go:125-134 | A key is stale if and only if it has a last success at least the positive threshold ago: staleness needs data and is upward closed in the time asked about |
| LastKnownGoods.OpenFailuresSnoc | exporter/featurekit/last_known_good.go:60-71 | How one event changes the set of open failures |
| LastKnownGoods.LastSuccessSnoc | exporter/featurekit/last_known_good.go:45-81 | How one event changes which success is the last |
| LastKnownGoods.LastKnownGood.constructor | exporter/featurekit/last_known_good.go:38-43 | Nothing is held at first |
| LastKnownGoods.LastKnownGood.Success | exporter/featurekit/last_known_good.go:45-58 | The entries after a success |
| LastKnownGoods.LastKnownGood.Failure | exporter/featurekit/last_known_good.go:60-71 | The entries after a failure, also of a key never seen |
| LastKnownGoods.LastKnownGood.Delete | exporter/featurekit/last_known_good.go:73-81 | The entries after a deletion |
| LastKnownGoods.LastKnownGood.Get | exporter/featurekit/last_known_good.go:83-95 | The answer for held and for unknown keys |
| LastKnownGoods.LastKnownGood.Snapshot | exporter/featurekit/last_known_good.go:97-112 | Each held key exactly once, with the result `Get` gives, and as many as `Len` |
| LastKnownGoods.LastKnownGood.Len | exporter/featurekit/last_known_good.go:114-123 | The number of held keys |
| MakeVariables.TerminationIsAcyclicity | internal/docsgen/main.go:166-183 | Passes ever reach text without known references if and only if no chain of references comes back to a name; then as many passes as variables suffice |
| MakeVariables.NormalIffWithin | internal/docsgen/main.go:168-181 | n passes leave no known reference if and only if no chain of known references is longer than n |
| MakeVariables.IterateIsExpand | internal/docsgen/main.go:168-181 | n passes over text with chains of at most n references give the full recursive expansion, which holds no known reference |
| MakeVariables.IterateConcat | internal/docsgen/main.go:170-178 | Passes expand neighbouring pieces independently |
| MakeVariables.PassShortensChains | internal/docsgen/main.go:168-182 | Each pass that changes something strictly shortens the longest chain and keeps the full expansion |
| MakeVariables.LongChain | internal/docsgen/main.go:166-183 | Text whose chains are not bounded by n has a chain of n + 1 names |
| MakeVariables.ChainExceeds | internal/docsgen/main.go:166-183 | A chain longer than n refutes the bound n |
| MakeVariables.DistinctChainIsShort | internal/docsgen/main.go:166-183 | A chain without repetition is no longer than the table |
| MakeVariables.Pump | internal/docsgen/main.go:166-183 | A chain that comes back to a name extends beyond any bound |
| MakeVariables.ExpandIgnoresBound | internal/docsgen/main.go:166-183 | The expansion does not depend on the bound used to define it |
| MakeVariables.UnknownStaysInPlace | internal/docsgen/main.go:173-175 | An unknown reference stays verbatim between the expansions of what surrounds it |
| MakeVariables.RenderTokens | internal/docsgen/main.go:167 | Cutting text into references and characters loses nothing |
| MakeVariables.MatchMeansReference | internal/docsgen/main.go:167 | A text begins with a reference exactly if it is `$(`, a non-empty name of capital letters, digits and underscores, `)`, and a rest; the name and the rest found are exactly those |
| MakeVariables.NameCharIsListed | internal/docsgen/main.go:167 | The characters of names, listed |
| MakeVariables.RefutedIsNoMatch | internal/docsgen/main.go:167 | A `$` whose following characters rule out a reference does not begin a match |
| MakeVariables.TokensAreFaithful | internal/docsgen/main.go:167 | In the tokens of any text no character begins a reference |
| MakeVariables.TokensOfRender | internal/docsgen/main.go:167-170 | Tokens are found again in their text if and only if no character of them begins a reference there |
| MakeVariables.CleanIsFaithful | internal/docsgen/main.go:167 | Text in which every `$` begins a reference or is ruled out as one by its own following characters has such tokens |
| MakeVariables.PassKeepsClean | internal/docsgen/main.go:170-178 | A pass over such text with such variables gives such text |
| MakeVariables.SubstitutedIsPass | internal/docsgen/main.go:170-178 | Replacing references in the text is one pass over its tokens |
| MakeVariables.NextPass | internal/docsgen/main.go:170-178 | After a textual replacement the new text is cut into exactly the passed tokens if and only if no character of those begins a reference |
| MakeVariables.ReplaceAll | internal/docsgen/main.go:170-178 | For any text: the replaced text, and `changed` set exactly when a known reference occurred |
| MakeVariables.TextIterateIsIterate | internal/docsgen/main.go:168-182 | For any text and variables: the first n rounds of the loop are the first n passes over the tokens if and only if no character of those passes begins a reference |
| MakeVariables.FirstPassesSuffice | internal/docsgen/main.go:168-182 | For acyclic references it is enough to look at as many passes as there are variables |
| MakeVariables.CleanPasses | internal/docsgen/main.go:166-183 | A check on the text and the variables alone that is enough for every pass |
| MakeVariables.EndsIffAcyclic | internal/docsgen/main.go:166-183 | When the passes are faithful in that sense the textual loop ends if and only if no chain of references comes back to a name |
| MakeVariables.EndIsExpanded | internal/docsgen/main.go:166-183 | When it then ends, the text is the rendered full expansion |
| MakeVariables.AcyclicTextEnds | internal/docsgen/main.go:166-183 | Acyclic text whose first passes, as many as variables, are faithful is the rendered full expansion after as many rounds |
| MakeVariables.ExpandMakeVariables | internal/docsgen/main.go:166-183 | For any text on which the loop ends at all: the result is the first text of the rounds without a known reference; when the passes are faithful it is the rendered full expansion |
| MakeVariables.MakeVariable | internal/docsgen/main.go:158-164 | An unknown name is an error; a known one on which the loop ends is expanded in the same sense |
| MakeLimits.AcyclicTextMayLoopForever | internal/docsgen/main.go:166-183 | With `X` as `A` and `A` as `$($(X))` the references of `$($(X))` are acyclic, and yet the loop never ends: the text alternates with `$(A)` |
| MakeLimits.StrayDollarFormsReference | internal/docsgen/main.go:166-183 | With `X` as `Y`, one round of `$($(X))` forms a reference that the passed tokens do not hold, so text and tokens part; the loop still ends with the full expansion |
| MakeLimits.FaithfulIsWiderThanClean | internal/docsgen/main.go:167 | `5$` fails the check on the text but all its passes are faithful, with any variables |
| MakeLimits.OneReferenceIsExpanded | internal/docsgen/main.go:166-183 | Text that begins with one known reference to plain text and is plain otherwise is expanded in one round |
| MakeLimits.ConfigFileIsExpanded | scaffold/Makefile:21-28 | The repository's own configuration file variable expands, in one round, to the project name followed by `.yml` |
| TextLines.JoinSplit | scaffold/scripts/go-symbol-diff.go:158-162 | Joining the split lines gives the text back |
| TextLines.SplitJoin | scaffold/scripts/go-symbol-diff.go:158-162 | Splitting joined lines gives the lines back |
| TextLines.SplitPrinted | scaffold/scripts/go-symbol-diff.go:186-193 | Printed lines can be read back |
| TextLines.Indent | scaffold/scripts/go-symbol-diff.go:157-163 | Every line of the trimmed text is indented by four blanks |
| TextLines.UnindentIndented | scaffold/scripts/go-symbol-diff.go:157-163 | Taking the indentation away gives the text back up to its final newlines |
| TextLines.IndentedLines | scaffold/scripts/go-symbol-diff.go:157-163 | The indented text is, line by line, the trimmed text after four blanks |
| LineDiffs.SidesUpTo | scaffold/scripts/go-symbol-diff.go:175-195 | After n positions each side of the records is the first n lines of its text |
| LineDiffs.RecordsOfPosition | scaffold/scripts/go-symbol-diff.go:185-194 | An equal line is shown once after two blanks, other lines after `-` and `+`, the left one first |
| LineDiffs.LineDiffRoundTrip | scaffold/scripts/go-symbol-diff.go:165-196 | Dropping the `+` records gives the left lines, dropping the `-` records the right lines |
| LineDiffs.PrintedDiffDeterminesTexts | scaffold/scripts/go-symbol-diff.go:165-196 | The printed records, read back, give both texts up to their final newlines |
| LineDiffs.PrintLineDiff | scaffold/scripts/go-symbol-diff.go:165-196 | Prints the two label lines, then exactly the records of the diff |
| SymbolDiffs.SortedDistinct | scaffold/scripts/go-symbol-diff.go:61-65 | Sorting distinct keys yields the same keys in strictly ascending order |
| SymbolDiffs.BelowIsFirstDifference | scaffold/scripts/go-symbol-diff.go:65 | The order is that of the first differing character, a prefix coming first |
| SymbolDiffs.InsertKeepsOrder | scaffold/scripts/go-symbol-diff.go:65 | Inserting a new key keeps the order and adds exactly that key |
| SymbolDiffs.AppliedGivesRight | scaffold/scripts/go-symbol-diff.go:67-83 | One key's report turns either side's text for it into the other's: whole if the texts are equal, otherwise without final newlines |
| SymbolDiffs.ApplyGivesRight | scaffold/scripts/go-symbol-diff.go:67-83 | The same for the reports on any list of keys, forwards and mirrored |
| SymbolDiffs.ReportDeterminesTables | scaffold/scripts/go-symbol-diff.go:54-83 | A complete report turns either table into the other: unchanged texts whole, the others without final newlines |
| SymbolDiffs.RecoveredExactly | scaffold/scripts/go-symbol-diff.go:54-83 | The right table comes back exactly if and only if each of its texts that ends in a newline is unchanged; extracted symbols never end in one |
| SymbolDiffs.ReportsCoincide | scaffold/scripts/go-symbol-diff.go:54-83 | Two right tables give the same report against one left table if and only if they have the same keys and, key by key, the same text or texts that differ in final newlines only and both from the left one; so no reader can tell those apart |
| SymbolDiffs.ReportTellsText | scaffold/scripts/go-symbol-diff.go:67-83 | The same for one key |
| SymbolDiffs.AscendingIsUnique | scaffold/scripts/go-symbol-diff.go:61-65 | A set of keys has one ascending order |
| SymbolDiffs.TrimmedIsNoLonger | scaffold/scripts/go-symbol-diff.go:158 | Trimming leaves a text alone exactly when it does not end in a newline |
| SymbolDiffs.OnlyNewlinesGo | scaffold/scripts/go-symbol-diff.go:158 | Trimming removes all newlines at the end and nothing else |
| SymbolDiffs.AddKeys | scaffold/scripts/go-symbol-diff.go:54-60 | The keys of a table are added to the union |
| SymbolDiffs.Keys | scaffold/scripts/go-symbol-diff.go:61-64 | Each key of the union once |
| SymbolDiffs.SortedKeys | scaffold/scripts/go-symbol-diff.go:61-65 | Exactly the keys of the union, ascending |
| SymbolDiffs.ReportKey | scaffold/scripts/go-symbol-diff.go:67-83 | Missing, extra, same or different, with the text or diff that belongs to it, and the lines printed for it |
| SymbolDiffs.PrintedForKey | scaffold/scripts/go-symbol-diff.go:67-83 | The lines printed for a key, spelled out: which word, which label, which text |
| SymbolDiffs.RunSymbolDiff | scaffold/scripts/go-symbol-diff.go:54-84 | Every key of the union is reported exactly once, in sorted order, with its own report; the printed lines are those of the report |
| SymbolOutputs.HeaderTellsEntry | scaffold/scripts/go-symbol-diff.go:69-81 | A header and the lines below it give the entry back |
| SymbolOutputs.ReadPrinted | scaffold/scripts/go-symbol-diff.go:67-83 | The printed text, read back line by line, is the report |
| SymbolOutputs.OutputDeterminesTables | scaffold/scripts/go-symbol-diff.go:54-83 | With labels and keys on one line each, the whole printed output with either table gives the other |
| FeatureMetrics.ValidateSpecs | exporter/featurekit/metrics.go:123-134 | Passes exactly when IDs are non-empty and distinct; otherwise names the first offence |
| FeatureMetrics.LoadFeatureMetricDescriptors | exporter/featurekit/metrics.go:60-85 | Loads exactly when IDs and rendered names are non-empty and distinct; the result describes the specs in order, and a panic names the first offence |
| FeatureMetrics.Describe | exporter/featurekit/metrics.go:87-91 | Sends the descriptors of the specs in the order of the specs |
| FeatureMetrics.FeatureMetricName | exporter/featurekit/metrics.go:101-108 | The name of the first spec with the ID, an error exactly when there is none |
| FeatureMetrics.LoadedNamesAgree | exporter/featurekit/metrics.go:93-121 | Once loaded, an ID is known exactly when a spec has it, and its descriptor carries the rendered name |
| FeatureMetrics.LoadedDescriptorsFollowScopes | exporter/featurekit/metrics.go:67-121 | A loaded descriptor has the help and labels of its spec, and its name behind the feature, behind the namespace, or by itself, as the scope says |
| GeneratedMetrics.KindOfFileId | exporter/featurekit/file_scrape_metrics.go:31-38 | The kind of a file-scrape ID can be read off its end, whatever the source |
| GeneratedMetrics.KindOfGoodId | exporter/featurekit/last_known_good_metrics.go:28-33 | The same for last-known-good IDs |
| GeneratedMetrics.KindOfCacheId | exporter/featurekit/ttl_cache_metrics.go:5-13 | The same for cache IDs |
| GeneratedMetrics.KindOfId | exporter/featurekit/file_scrape_metrics.go:27-39 | No suffix can be mistaken for another, whatever precedes it |
| GeneratedMetrics.IdsAreInjective | exporter/featurekit/file_scrape_metrics.go:27-39 | Equal IDs come from the same source and the same kind |
| GeneratedMetrics.OneFileComes | exporter/featurekit/file_scrape_metrics.go:41-87 | The file-scrape specs are those of the six kinds, in order |
| GeneratedMetrics.FileSpecsSpelledOut | exporter/featurekit/file_scrape_metrics.go:41-87 | The six specs of a file source, with IDs, names, help and labels |
| GeneratedMetrics.OneGoodComes | exporter/featurekit/last_known_good_metrics.go:36-68 | The last-known-good specs are those of the four kinds, in order |
| GeneratedMetrics.GoodSpecsSpelledOut | exporter/featurekit/last_known_good_metrics.go:36-68 | The four specs of a last-known-good source, with IDs, names, help and labels |
| GeneratedMetrics.CacheComes | exporter/featurekit/ttl_cache_metrics.go:25-78 | The cache specs are those of the seven kinds, in order |
| GeneratedMetrics.CacheSpecOrder | exporter/featurekit/ttl_cache_metrics.go:25-78 | The seven specs of the cache, in order |
| GeneratedMetrics.CacheSpecsSpelledOut | exporter/featurekit/ttl_cache_metrics.go:26-48 | The specs of entries, hits and misses, with the label `cache` first |
| GeneratedMetrics.WriteSpecsSpelledOut | exporter/featurekit/ttl_cache_metrics.go:49-62 | The specs of sets and deletions |
| GeneratedMetrics.RemovalSpecsSpelledOut | exporter/featurekit/ttl_cache_metrics.go:63-77 | The specs of expiries and clears |
| GeneratedMetrics.NamesFollowIds | exporter/featurekit/metrics.go:110-121 | Two generated specs share a rendered name exactly when they share an ID |
| GeneratedMetrics.OriginsDistinct | exporter/featurekit/file_scrape_metrics.go:41-87 | Origins are distinct exactly when the sources are |
| GeneratedMetrics.LoadableIffOriginsDistinct | exporter/featurekit/metrics.go:60-85 | Generated specs load if and only if no two come from the same source and kind |
| GeneratedMetrics.GeneratedSpecsLoad | exporter/featurekit/metrics.go:60-134 | For any source lists and any labels in each call, the concatenated file-scrape, last-known-good and cache specs load if and only if no source is blank and none is repeated in its list; a source may be in both lists |
| GeneratedMetrics.SpaceIsListed | exporter/featurekit/file_scrape_metrics.go:28-30 | The characters that make a source blank, listed |
| GeneratedMetrics.EverySourceIsFound | exporter/featurekit/file_scrape_metrics.go:89-98 | After loading, every metric of every source is found under its ID and carries its full name |
| CollectorRegistration.RegisterAll | exporter/internal/feature/feature.go:97-111 | No refusal exactly when each collector is accepted after the ones before it; on success exactly the non-nil collectors are added in order, on a refusal the registry is as before and exactly the part registered is undone |
| CollectorRegistration.RollBack | exporter/internal/feature/feature.go:104-106 | Unregistering an admitted part restores the registry |
| CollectorRegistration.RegisterCollectors | exporter/internal/feature/feature.go:96-112 | All or nothing, with the registry history that belongs to either |
| CollectorRegistration.RegisterAndStartCollectors | exporter/internal/feature/feature.go:114-134 | A failing batch leaves the registered set as before and starts nothing; a successful one registers every non-nil collector, then starts each once, in order |
| CollectorRegistration.AdmissibleOrRefused | exporter/internal/feature/feature.go:97-111 | A batch is admitted as a whole if and only if no collector in it is refused after the ones before it were accepted |
| CollectorRegistration.AdmissibleMeansAccepted | exporter/internal/feature/feature.go:102-109 | A batch is admitted exactly if no collector is held already, repeated, or in conflict with those held and those before it |
| CollectorRegistration.PresentAreNotNil | exporter/internal/feature/feature.go:99-101 | What is registered are the collectors of the batch that are not nil, each place once, in order |
| CollectorRegistration.RefusalsCoincide | exporter/internal/feature/feature.go:102-109 | The refused collector, and the part registered before it, are determined by the batch |
| CollectorRegistration.AdmissibleIsDistinct | exporter/internal/feature/feature.go:102-109 | An admitted batch holds no collector twice and none already registered |
| CollectorRegistration.BatchIsAtomic | exporter/internal/feature/feature.go:96-134 | Replaying the history of a rolled-back batch gives the registry before it; replaying a successful one adds exactly its collectors |
| CollectorRegistration.ReplayParts | exporter/internal/feature/feature.go:102-133 | What replaying registrations, removals and starts does to the registered set |

## Left out

- HTTP server and handlers, flags, logging, YAML, file reading and signal handling: I/O around the modelled core.
- The Prometheus library: descriptors are a name, help and labels; the registry is a set with an arbitrary refusal relation whose `Unregister` undoes `Register`. Unchecked collectors are not modelled.
- Float rounding of seconds and sums, saturation of `time.Time`, and wrap-around of 64-bit counters: integers throughout.
- Context deadlines, `SyncRefreshTimeout`, and panics inside snapshotter, status or log callbacks: callbacks return. The status function's answer is an input of the step that stores.
- Nil receivers, default chains for options other than the refresh interval, and the metric values `Collect` emits: single branches.
- Fairness of the Go scheduler: progress is stated as a schedule that exists from every reachable state and as a measure it decreases, not as a claim about what the scheduler does.
- SnapshotCollectors.SnapshotCollector.CurrentSnapshot: observes at most as many retries as `clock` has readings and at most `patience` spurious sleeps per wait; it answers None only while the scrape is still asleep or would sleep.
- SnapshotCollectors.SnapshotCollector.AwaitRefresh: observes at most `patience` sleeps after the first, for the same reason.
- SnapshotCollectors.SnapshotCollector.OthersRun: its body is the schedule in which no other thread runs; callers know only its contract, which `OthersStayWithinRely` proves of every schedule.
- SnapshotCollectors.SnapshotCollector.CondWait: as OthersRun, for the wait on the condition variable.
- SnapshotCollectors.SnapshotCollector.RefreshLoop: the ticks observed before cancellation are a given list.
- TtlCaches.TtlCache.Stats: the counter loads are one step; loads interleaved with other calls are not modelled.
- MakeVariables.ExpandMakeVariables: asks that the loop ends, since a run that never returns has no result. Where text and tokens part, the result is stated by the rounds of the text only; it may still be the full expansion.
- MakeVariables.MakeVariable: the same.
- SymbolDiffs.RunSymbolDiff: starts from extracted symbol tables; parsing Go files and extracting symbols is not part of this model. The output is a list of lines, each ended by a newline when printed. Sorting is an insertion sort on strings compared character by character.
- GeneratedMetrics.EverySourceIsFound: stands for the three `Descs` functions, which look up one ID after the other.
- Config caching, feature wiring and extension contracts: delegation to callbacks.
- Templates, scaffold scripts, Makefile parsing and the public API walkers.
