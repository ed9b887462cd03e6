/** The shared state of the snapshot collector, the critical sections as functions of that
    state, and the interleavings of any number of scrapes and refresh loops over it. */
module SnapshotProtocol {
  import opened Basics
  import opened Histograms

  datatype Status = Status(attempt: Time, success: bool)

  /** One stored refresh, with the status as the status function reported it. */
  datatype Store<T> = Store(snapshot: T, reported: Status, duration: int, refreshTime: Time) {
    function Effective(): Status {
      if reported.attempt == ZERO_TIME then reported.(attempt := refreshTime) else reported
    }
  }

  /** What a scrape reads: the snapshot, its status, the last success and the histogram. */
  datatype View<T> = View(snapshot: T, status: Status, lastSuccess: Time, histogram: Histogram)

  /** The fields guarded by the collector's mutex. */
  datatype Shared<T> = Shared(initialized: bool, backgroundStarted: bool, refreshing: bool, view: View<T>)

  datatype Config<T> = Config(interval: int, bounds: seq<int>, zero: T) {
    ghost predicate Valid() { interval > 0 && Increasing(bounds) }
  }

  // ---- The critical sections ----

  datatype Decision = Serve | Wait | Collect

  predicate Fresh<T>(interval: int, s: Shared<T>, now: Time) {
    s.initialized && (s.backgroundStarted || now - s.view.status.attempt < interval)
  }

  /** What a scrape does when it looks at the state at the top of its loop. */
  function Decide<T>(interval: int, s: Shared<T>, now: Time): Decision {
    if Fresh(interval, s, now) then Serve else if s.refreshing then Wait else Collect
  }

  /** Storing a finished refresh and clearing the in-flight flag. */
  function Stored<T>(s: Shared<T>, st: Store<T>): Shared<T> {
    var status := st.Effective();
    s.(initialized := true, refreshing := false,
       view := View(st.snapshot, status,
                    if status.success then status.attempt else s.view.lastSuccess,
                    Observed(s.view.histogram, st.duration)))
  }

  function Elapsed(started: Time, ended: Time): int {
    if ended - started < 0 then 0 else ended - started
  }

  // ---- The specification of a view ----

  function LastSuccess<T>(stores: seq<Store<T>>): Time {
    if stores == [] then ZERO_TIME
    else if stores[|stores| - 1].Effective().success then stores[|stores| - 1].Effective().attempt
    else LastSuccess(stores[..|stores| - 1])
  }

  function Durations<T>(stores: seq<Store<T>>): seq<int> {
    seq(|stores|, i requires 0 <= i < |stores| => stores[i].duration)
  }

  /** `v` is exactly what the history `stores` amounts to. */
  ghost predicate Reflects<T>(cfg: Config<T>, v: View<T>, stores: seq<Store<T>>) {
    && v.lastSuccess == LastSuccess(stores)
    && Shows(v.histogram, cfg.bounds, Durations(stores))
    && if stores == [] then v.snapshot == cfg.zero && v.status == Status(ZERO_TIME, false)
       else v.snapshot == stores[|stores| - 1].snapshot && v.status == stores[|stores| - 1].Effective()
  }

  lemma StoredReflects<T>(cfg: Config<T>, s: Shared<T>, stores: seq<Store<T>>, st: Store<T>)
    requires Reflects(cfg, s.view, stores)
    ensures Reflects(cfg, Stored(s, st).view, stores + [st])
  {
    assert (stores + [st])[..|stores|] == stores;
    assert Durations(stores + [st]) == Durations(stores) + [st.duration];
    ObserveExtendsHistory(s.view.histogram, cfg.bounds, Durations(stores), st.duration);
  }

  lemma ReflectionIsUnique<T>(cfg: Config<T>, v: View<T>, w: View<T>, stores: seq<Store<T>>)
    requires Reflects(cfg, v, stores) && Reflects(cfg, w, stores)
    ensures v == w
  {
    HistogramIsUnique(v.histogram, w.histogram, cfg.bounds, Durations(stores));
  }

  // ---- Threads, steps and runs ----

  datatype Origin = Scrape | Loop

  /** Where a thread stands between two of its critical sections. */
  datatype Phase<T> =
    | AtTop(now: Time)                // a scrape about to lock and look
    | Asleep                          // a scrape waiting on the condition variable
    | Woken                           // broadcast to, but not yet holding the lock again
    | Returned(result: View<T>)       // a finished scrape
    | LoopSpawned                     // a refresh loop before its first context check
    | LoopSelecting                   // a refresh loop waiting for a tick or cancellation
    | LoopTicked(now: Time)           // a refresh loop about to begin a refresh
    | LoopStopping                    // a refresh loop that saw the cancellation
    | LoopExited                      // a refresh loop that recorded its exit
    | Calling(origin: Origin, now: Time)  // inside the snapshotter
    | Collected(origin: Origin, now: Time, snapshot: T, duration: int)  // about to store
  {
    predicate InFlight() { Calling? || Collected? }

    predicate ActiveScrape() { AtTop? || Asleep? || Woken? || (InFlight() && origin == Scrape) }

    predicate LiveLoop() {
      LoopSpawned? || LoopSelecting? || LoopTicked? || LoopStopping? || (InFlight() && origin == Loop)
    }
  }

  /** `stores` is history: it is written by `Finish` and read by no step. */
  datatype State<T> = State(shared: Shared<T>, threads: seq<Phase<T>>, cancelled: set<nat>, stores: seq<Store<T>>)

  datatype Step<T> =
    | Arrive(now: Time)                       // a scrape calls in, having sampled the clock
    | Hit(t: nat) | Sleep(t: nat) | Begin(t: nat)   // the three outcomes at the loop top
    | Recheck(t: nat, now: Time) | SleepAgain(t: nat)
    | CallReturns(t: nat, snapshot: T, started: Time, ended: Time)
    | Finish(t: nat, reported: Status)
    | Start                                   // spawns a loop unless one is recorded as running
    | Cancel(t: nat)
    | FirstTick(t: nat, now: Time) | SkipFirst(t: nat) | Tick(t: nat, now: Time)
    | LoopBegin(t: nat) | LoopDrop(t: nat)
    | SeeCancel(t: nat) | RecordExit(t: nat)

  predicate Enabled<T>(cfg: Config<T>, s: State<T>, step: Step<T>) {
    match step
    case Arrive(_) => true
    case Start => true
    case Cancel(t) => t < |s.threads| && s.threads[t].LiveLoop()
    case Hit(t) => t < |s.threads| && s.threads[t].AtTop? && Decide(cfg.interval, s.shared, s.threads[t].now) == Serve
    case Sleep(t) => t < |s.threads| && s.threads[t].AtTop? && Decide(cfg.interval, s.shared, s.threads[t].now) == Wait
    case Begin(t) =>
      t < |s.threads| && s.threads[t].AtTop? && Decide(cfg.interval, s.shared, s.threads[t].now) == Collect
    case Recheck(t, _) => t < |s.threads| && s.threads[t].Woken? && !s.shared.refreshing
    case SleepAgain(t) => t < |s.threads| && s.threads[t].Woken? && s.shared.refreshing
    case CallReturns(t, _, _, _) => t < |s.threads| && s.threads[t].Calling?
    case Finish(t, _) => t < |s.threads| && s.threads[t].Collected?
    case FirstTick(t, _) => t < |s.threads| && s.threads[t].LoopSpawned? && t !in s.cancelled
    case SkipFirst(t) => t < |s.threads| && s.threads[t].LoopSpawned? && t in s.cancelled
    case Tick(t, _) => t < |s.threads| && s.threads[t].LoopSelecting?
    case LoopBegin(t) => t < |s.threads| && s.threads[t].LoopTicked? && !s.shared.refreshing
    case LoopDrop(t) => t < |s.threads| && s.threads[t].LoopTicked? && s.shared.refreshing
    case SeeCancel(t) => t < |s.threads| && s.threads[t].LoopSelecting? && t in s.cancelled
    case RecordExit(t) => t < |s.threads| && s.threads[t].LoopStopping?
  }

  function WakeAll<T>(threads: seq<Phase<T>>): (woken: seq<Phase<T>>)
    ensures |woken| == |threads|
    ensures forall i :: 0 <= i < |threads| ==> woken[i] == if threads[i].Asleep? then Woken else threads[i]
  {
    seq(|threads|, i requires 0 <= i < |threads| => if threads[i].Asleep? then Woken else threads[i])
  }

  function StoreOf<T>(p: Phase<T>, reported: Status): Store<T>
    requires p.Collected?
  {
    Store(p.snapshot, reported, p.duration, p.now)
  }

  function Apply<T>(cfg: Config<T>, s: State<T>, step: Step<T>): State<T>
    requires Enabled(cfg, s, step)
  {
    match step
    case Arrive(now) => s.(threads := s.threads + [AtTop(now)])
    case Start =>
      if s.shared.backgroundStarted then s
      else s.(shared := s.shared.(backgroundStarted := true), threads := s.threads + [LoopSpawned])
    case Cancel(t) => s.(cancelled := s.cancelled + {t})
    case Hit(t) => s.(threads := s.threads[t := Returned(s.shared.view)])
    case Sleep(t) => s.(threads := s.threads[t := Asleep])
    case Begin(t) =>
      s.(shared := s.shared.(refreshing := true), threads := s.threads[t := Calling(Scrape, s.threads[t].now)])
    case Recheck(t, now) => s.(threads := s.threads[t := AtTop(now)])
    case SleepAgain(t) => s.(threads := s.threads[t := Asleep])
    case CallReturns(t, snapshot, started, ended) =>
      var p := s.threads[t];
      s.(threads := s.threads[t := Collected(p.origin, p.now, snapshot, Elapsed(started, ended))])
    case Finish(t, reported) =>
      var p := s.threads[t];
      var shared := Stored(s.shared, StoreOf(p, reported));
      s.(shared := shared, stores := s.stores + [StoreOf(p, reported)],
         threads := WakeAll(s.threads)[t := if p.origin == Scrape then Returned(shared.view) else LoopSelecting])
    case FirstTick(t, now) => s.(threads := s.threads[t := LoopTicked(now)])
    case SkipFirst(t) => s.(threads := s.threads[t := LoopSelecting])
    case Tick(t, now) => s.(threads := s.threads[t := LoopTicked(now)])
    case LoopBegin(t) =>
      s.(shared := s.shared.(refreshing := true), threads := s.threads[t := Calling(Loop, s.threads[t].now)])
    case LoopDrop(t) => s.(threads := s.threads[t := LoopSelecting])
    case SeeCancel(t) => s.(threads := s.threads[t := LoopStopping])
    case RecordExit(t) =>
      s.(shared := s.shared.(backgroundStarted := false), threads := s.threads[t := LoopExited])
  }

  ghost predicate Initial<T>(cfg: Config<T>, s: State<T>) {
    && !s.shared.initialized && !s.shared.backgroundStarted && !s.shared.refreshing
    && Reflects(cfg, s.shared.view, [])
    && s.threads == [] && s.cancelled == {} && s.stores == []
  }

  datatype Run<T> = Run(states: seq<State<T>>, steps: seq<Step<T>>) {
    ghost predicate Valid(cfg: Config<T>) {
      && |states| == |steps| + 1
      && Initial(cfg, states[0])
      && forall i :: 0 <= i < |steps| ==>
           Enabled(cfg, states[i], steps[i]) && states[i + 1] == Apply(cfg, states[i], steps[i])
    }
  }

  // ---- The invariant ----

  ghost predicate OnlyInFlight<T>(s: State<T>, t: nat) {
    t < |s.threads| && forall u :: 0 <= u < |s.threads| ==> (s.threads[u].InFlight() <==> u == t)
  }

  /** The flag is set exactly while one thread is between begin and finish. */
  ghost predicate SingleFlight<T>(s: State<T>) {
    if s.shared.refreshing then exists t: nat :: OnlyInFlight(s, t)
    else forall u :: 0 <= u < |s.threads| ==> !s.threads[u].InFlight()
  }

  ghost predicate OnlyLoop<T>(s: State<T>, t: nat) {
    t < |s.threads| && forall u :: 0 <= u < |s.threads| ==> (s.threads[u].LiveLoop() <==> u == t)
  }

  /** The flag is set exactly while one spawned loop has not recorded its exit. */
  ghost predicate SingleLoop<T>(s: State<T>) {
    if s.shared.backgroundStarted then exists t: nat :: OnlyLoop(s, t)
    else forall u :: 0 <= u < |s.threads| ==> !s.threads[u].LiveLoop()
  }

  /** A sleeper always has a refresh in flight that will broadcast to it. */
  ghost predicate NoLostWakeup<T>(s: State<T>) {
    forall t :: 0 <= t < |s.threads| && s.threads[t].Asleep? ==> s.shared.refreshing
  }

  ghost predicate ShowsHistory<T>(cfg: Config<T>, s: State<T>) {
    && (s.shared.initialized <==> s.stores != [])
    && Reflects(cfg, s.shared.view, s.stores)
  }

  ghost predicate NonNegativeDurations<T>(s: State<T>) {
    && (forall k :: 0 <= k < |s.stores| ==> s.stores[k].duration >= 0)
    && (forall t :: 0 <= t < |s.threads| && s.threads[t].Collected? ==> s.threads[t].duration >= 0)
  }

  ghost predicate Inv<T>(cfg: Config<T>, s: State<T>) {
    SingleFlight(s) && SingleLoop(s) && NoLostWakeup(s) && ShowsHistory(cfg, s) && NonNegativeDurations(s)
  }

  lemma SingleFlightKept<T>(cfg: Config<T>, s: State<T>, step: Step<T>)
    requires SingleFlight(s) && Enabled(cfg, s, step)
    ensures SingleFlight(Apply(cfg, s, step))
  {
    var s' := Apply(cfg, s, step);
    if s.shared.refreshing {
      var t: nat :| OnlyInFlight(s, t);
      assert step.Finish? || OnlyInFlight(s', t);
    } else if step.Begin? || step.LoopBegin? {
      assert OnlyInFlight(s', step.t);
    }
  }

  lemma InFlightIsUnique<T>(s: State<T>, t: nat, u: nat)
    requires SingleFlight(s) && t < |s.threads| && u < |s.threads|
    requires s.threads[t].InFlight() && s.threads[u].InFlight()
    ensures t == u && s.shared.refreshing
  {
  }

  lemma SingleLoopKept<T>(cfg: Config<T>, s: State<T>, step: Step<T>)
    requires SingleLoop(s) && Enabled(cfg, s, step)
    ensures SingleLoop(Apply(cfg, s, step))
  {
    var s' := Apply(cfg, s, step);
    if s.shared.backgroundStarted {
      var t: nat :| OnlyLoop(s, t);
      assert step.RecordExit? || OnlyLoop(s', t);
    } else if step.Start? {
      assert OnlyLoop(s', |s.threads|);
    }
  }

  lemma NoLostWakeupKept<T>(cfg: Config<T>, s: State<T>, step: Step<T>)
    requires NoLostWakeup(s) && Enabled(cfg, s, step)
    ensures NoLostWakeup(Apply(cfg, s, step))
  {
  }

  lemma ShowsHistoryKept<T>(cfg: Config<T>, s: State<T>, step: Step<T>)
    requires ShowsHistory(cfg, s) && Enabled(cfg, s, step)
    ensures ShowsHistory(cfg, Apply(cfg, s, step))
  {
    hide Reflects, Stored;
    if step.Finish? {
      StoredIsInitialized(s.shared, StoreOf(s.threads[step.t], step.reported));
      StoredReflects(cfg, s.shared, s.stores, StoreOf(s.threads[step.t], step.reported));
    }
  }

  lemma StoredIsInitialized<T>(s: Shared<T>, st: Store<T>)
    ensures Stored(s, st).initialized
  {
  }

  lemma NonNegativeDurationsKept<T>(cfg: Config<T>, s: State<T>, step: Step<T>)
    requires NonNegativeDurations(s) && Enabled(cfg, s, step)
    ensures NonNegativeDurations(Apply(cfg, s, step))
  {
  }

  /** Every step of every thread keeps the invariant. */
  lemma InvKept<T>(cfg: Config<T>, s: State<T>, step: Step<T>)
    requires Inv(cfg, s) && Enabled(cfg, s, step)
    ensures Inv(cfg, Apply(cfg, s, step))
  {
    hide Apply, SingleFlight, SingleLoop, NoLostWakeup, ShowsHistory, NonNegativeDurations;
    SingleFlightKept(cfg, s, step);
    SingleLoopKept(cfg, s, step);
    NoLostWakeupKept(cfg, s, step);
    ShowsHistoryKept(cfg, s, step);
    NonNegativeDurationsKept(cfg, s, step);
  }

  /** What finishing a refresh does, spelled out for its callers. */
  lemma FinishEffect<T>(cfg: Config<T>, s: State<T>, t: nat, reported: Status)
    requires Inv(cfg, s) && Enabled(cfg, s, Finish(t, reported))
    ensures var s' := Apply(cfg, s, Finish(t, reported));
            && Inv(cfg, s')
            && s'.shared == Stored(s.shared, StoreOf(s.threads[t], reported))
            && s'.stores == s.stores + [StoreOf(s.threads[t], reported)]
            && Reflects(cfg, s'.shared.view, s'.stores)
            && t < |s'.threads|
            && s'.threads[t] == if s.threads[t].origin == Scrape then Returned(s'.shared.view) else LoopSelecting
  {
    hide Inv, Stored;
    InvKept(cfg, s, Finish(t, reported));
    InvShowsHistory(cfg, Apply(cfg, s, Finish(t, reported)));
  }

  lemma InvShowsHistory<T>(cfg: Config<T>, s: State<T>)
    requires Inv(cfg, s)
    ensures ShowsHistory(cfg, s)
  {
  }

  /** Every reachable state satisfies the invariant. */
  lemma {:induction false} ReachableInv<T>(cfg: Config<T>, run: Run<T>, i: nat)
    requires run.Valid(cfg) && i < |run.states|
    ensures Inv(cfg, run.states[i])
  {
    hide Apply, Enabled;
    if i > 0 {
      hide Inv;
      ReachableInv(cfg, run, i - 1);
      InvKept(cfg, run.states[i - 1], run.steps[i - 1]);
    }
  }

  // ---- What one thread may rely on while others run ----

  predicate ActsAs<T>(step: Step<T>, t: nat) {
    match step
    case Arrive(_) => false
    case Start => false
    case Hit(u) => u == t
    case Sleep(u) => u == t
    case Begin(u) => u == t
    case Recheck(u, _) => u == t
    case SleepAgain(u) => u == t
    case CallReturns(u, _, _, _) => u == t
    case Finish(u, _) => u == t
    case Cancel(_) => false
    case FirstTick(u, _) => u == t
    case SkipFirst(u) => u == t
    case Tick(u, _) => u == t
    case LoopBegin(u) => u == t
    case LoopDrop(u) => u == t
    case SeeCancel(u) => u == t
    case RecordExit(u) => u == t
  }

  /** Any number of steps of threads other than `t`: the history only grows, `t` is where it
      was unless a finishing refresh woke it, and nobody stores while `t` holds the flag. */
  ghost predicate Rely<T>(cfg: Config<T>, s: State<T>, s': State<T>, t: nat) {
    && Inv(cfg, s')
    && s.stores <= s'.stores
    && t < |s.threads| <= |s'.threads|
    && (s'.threads[t] == s.threads[t] ||
        (s.threads[t].Asleep? && s'.threads[t].Woken? && |s.stores| < |s'.stores|))
    && (s.threads[t].InFlight() ==> s'.stores == s.stores && s'.shared.view == s.shared.view)
  }

  lemma OtherStepRelied<T>(cfg: Config<T>, s: State<T>, step: Step<T>, t: nat)
    requires Inv(cfg, s) && Enabled(cfg, s, step) && t < |s.threads| && !ActsAs(step, t)
    ensures Rely(cfg, s, Apply(cfg, s, step), t)
  {
    InvKept(cfg, s, step);
    if s.threads[t].InFlight() && step.Finish? {
      InFlightIsUnique(s, t, step.t);
    }
  }

  lemma RelyComposes<T>(cfg: Config<T>, s: State<T>, s': State<T>, s'': State<T>, t: nat)
    requires Rely(cfg, s, s', t) && Rely(cfg, s', s'', t)
    ensures Rely(cfg, s, s'', t)
  {
  }

  /** Whatever the other threads do, in any order and number, stays within the rely. */
  lemma {:induction false} OthersStayWithinRely<T>(cfg: Config<T>, run: Run<T>, t: nat, i: nat, j: nat)
    requires run.Valid(cfg) && i <= j < |run.states| && t < |run.states[i].threads|
    requires forall k :: i <= k < j ==> !ActsAs(run.steps[k], t)
    ensures Rely(cfg, run.states[i], run.states[j], t)
  {
    hide Apply, Enabled, Inv;
    ReachableInv(cfg, run, j);
    if i < j {
      OthersStayWithinRely(cfg, run, t, i, j - 1);
      ReachableInv(cfg, run, j - 1);
      OtherStepRelied(cfg, run.states[j - 1], run.steps[j - 1], t);
      RelyComposes(cfg, run.states[i], run.states[j - 1], run.states[j], t);
    }
  }
}
