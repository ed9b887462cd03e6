/** Stored attempt times under a clock that does not go back. Readings are taken outside the
    lock, so the order of the readings need not be the order of the stores. */
module SnapshotClocks {
  import opened Basics
  import opened SnapshotProtocol
  import opened SnapshotRuns

  predicate Samples<T>(step: Step<T>) { step.Arrive? || step.Recheck? || step.FirstTick? || step.Tick? }

  /** Of the first `n` steps, each one that reads the clock reads no less than those before it. */
  ghost predicate Forward<T>(run: Run<T>, n: nat) {
    forall i, j :: 0 <= i < j < n && j < |run.steps| && Samples(run.steps[i]) && Samples(run.steps[j]) ==>
      run.steps[i].now <= run.steps[j].now
  }

  predicate Timestamped<T>(p: Phase<T>) { p.AtTop? || p.LoopTicked? || p.InFlight() }

  function Attempt<T>(st: Store<T>): Time { st.Effective().attempt }

  function LastAttempt<T>(stores: seq<Store<T>>): Time
    requires stores != []
  {
    Attempt(stores[|stores| - 1])
  }

  ghost predicate AllEcho<T>(stores: seq<Store<T>>) {
    forall k :: 0 <= k < |stores| ==> Echoes(stores[k])
  }

  /** Attempt times never go back from one store to the next. */
  ghost predicate Ordered<T>(stores: seq<Store<T>>) {
    forall k :: 0 < k < |stores| ==> Attempt(stores[k - 1]) <= Attempt(stores[k])
  }

  // ---- Nothing in a state is later than the clock ----

  ghost predicate NoLater<T>(s: State<T>, clock: Time) {
    && (forall t :: 0 <= t < |s.threads| && Timestamped(s.threads[t]) ==> s.threads[t].now <= clock)
    && forall k :: 0 <= k < |s.stores| ==> Attempt(s.stores[k]) <= clock
  }

  lemma NoLaterKept<T>(cfg: Config<T>, s: State<T>, step: Step<T>, clock: Time)
    requires NoLater(s, clock) && Enabled(cfg, s, step) && AllEcho(Apply(cfg, s, step).stores)
    requires Samples(step) ==> step.now <= clock
    ensures NoLater(Apply(cfg, s, step), clock)
  {
    var s' := Apply(cfg, s, step);
    if step.Finish? {
      assert Echoes(s'.stores[|s.stores|]);
    }
  }

  lemma {:induction false} ReadingsBoundState<T>(cfg: Config<T>, run: Run<T>, i: nat, clock: Time)
    requires run.Valid(cfg) && i < |run.states| && AllEcho(run.states[i].stores)
    requires forall k :: 0 <= k < i && Samples(run.steps[k]) ==> run.steps[k].now <= clock
    ensures NoLater(run.states[i], clock)
  {
    hide Apply, Enabled, Inv;
    if i > 0 {
      EchoedBefore(cfg, run, i - 1, i);
      hide NoLater;
      ReadingsBoundState(cfg, run, i - 1, clock);
      NoLaterKept(cfg, run.states[i - 1], run.steps[i - 1], clock);
    }
  }

  lemma EchoedBefore<T>(cfg: Config<T>, run: Run<T>, i: nat, j: nat)
    requires run.Valid(cfg) && i <= j < |run.states| && AllEcho(run.states[j].stores)
    ensures AllEcho(run.states[i].stores)
  {
    StoresGrow(cfg, run, i, j);
    hide Echoes;
    forall k | 0 <= k < |run.states[i].stores|
      ensures Echoes(run.states[i].stores[k])
    {
      assert run.states[i].stores[k] == run.states[j].stores[k];
    }
  }

  lemma ReadingIsLatest<T>(cfg: Config<T>, run: Run<T>, i: nat)
    requires run.Valid(cfg) && i < |run.steps| && AllEcho(run.states[i].stores) && Forward(run, i + 1)
    ensures Samples(run.steps[i]) ==> NoLater(run.states[i], run.steps[i].now)
  {
    if Samples(run.steps[i]) {
      ReadingsBoundState(cfg, run, i, run.steps[i].now);
    }
  }

  // ---- From the second store on ----

  predicate ScrapeRefresh<T>(p: Phase<T>) { p.InFlight() && p.origin == Scrape }

  /** A refresh in flight, or a tick that may become one. */
  predicate Pending<T>(p: Phase<T>) { p.InFlight() || p.LoopTicked? }

  /** Ticks waiting to begin a refresh read the clock at `now` or later. */
  ghost predicate TicksFrom<T>(s: State<T>, now: Time) {
    forall u :: 0 <= u < |s.threads| && s.threads[u].LoopTicked? ==> now <= s.threads[u].now
  }

  ghost predicate PendingFrom<T>(s: State<T>, now: Time) {
    forall t :: 0 <= t < |s.threads| && Pending(s.threads[t]) ==> now <= s.threads[t].now
  }

  ghost predicate OrderedFromSecond<T>(stores: seq<Store<T>>) {
    forall k :: 2 <= k < |stores| ==> Attempt(stores[k - 1]) <= Attempt(stores[k])
  }

  /** A scrape's refresh of a filled cache is not older than the cache, nor is a tick beside it
      older than the scrape. */
  ghost predicate ScrapesFollow<T>(s: State<T>) {
    s.stores != [] ==>
      forall t :: 0 <= t < |s.threads| && ScrapeRefresh(s.threads[t]) ==>
        LastAttempt(s.stores) <= s.threads[t].now && TicksFrom(s, s.threads[t].now)
  }

  ghost predicate Settled<T>(s: State<T>) {
    && OrderedFromSecond(s.stores)
    && (|s.stores| >= 2 ==> PendingFrom(s, LastAttempt(s.stores)))
    && ScrapesFollow(s)
  }

  /** Where a pending thread comes from, when no refresh has just finished. */
  lemma PendingAfter<T>(cfg: Config<T>, s: State<T>, step: Step<T>, v: nat)
    requires Enabled(cfg, s, step) && !step.Finish?
    requires v < |Apply(cfg, s, step).threads| && Pending(Apply(cfg, s, step).threads[v])
    ensures var p := Apply(cfg, s, step).threads[v];
            || (Samples(step) && p == LoopTicked(step.now))
            || (v < |s.threads| && step == Begin(v) && s.threads[v] == AtTop(p.now) && p == Calling(Scrape, p.now))
            || (v < |s.threads| && step == LoopBegin(v) && s.threads[v] == LoopTicked(p.now)
                && p == Calling(Loop, p.now))
            || (v < |s.threads| && Pending(s.threads[v]) && s.threads[v].now == p.now
                && p.LoopTicked? == s.threads[v].LoopTicked? && ScrapeRefresh(p) == ScrapeRefresh(s.threads[v]))
  {
  }

  lemma OnlyFinishStores<T>(cfg: Config<T>, s: State<T>, step: Step<T>)
    requires Enabled(cfg, s, step)
    ensures Apply(cfg, s, step).stores ==
            s.stores + if step.Finish? then [StoreOf(s.threads[step.t], step.reported)] else []
  {
  }

  /** A scrape that refreshes a filled cache does so without a loop, an interval after the last attempt. */
  lemma ScrapeRefreshesStale<T>(cfg: Config<T>, s: State<T>, t: nat)
    requires cfg.Valid() && Inv(cfg, s) && Enabled(cfg, s, Begin(t)) && s.stores != []
    ensures LastAttempt(s.stores) < s.threads[t].now
    ensures forall u :: 0 <= u < |s.threads| ==> !s.threads[u].LiveLoop()
  {
  }

  lemma LoopIsAlone<T>(cfg: Config<T>, s: State<T>, t: nat, u: nat)
    requires Inv(cfg, s) && t < |s.threads| && u < |s.threads|
    requires s.threads[t].LiveLoop() && s.threads[u].LiveLoop()
    ensures t == u
  {
  }

  /** What is pending after a finish was a tick before it, beside a scrape's refresh. */
  lemma PendingAfterFinish<T>(cfg: Config<T>, s: State<T>, t: nat, reported: Status, v: nat)
    requires Inv(cfg, s) && Enabled(cfg, s, Finish(t, reported))
    requires var s' := Apply(cfg, s, Finish(t, reported)); v < |s'.threads| && Pending(s'.threads[v])
    ensures v < |s.threads| && s.threads[v].LoopTicked? && s.threads[v] == Apply(cfg, s, Finish(t, reported)).threads[v]
    ensures t < |s.threads| && ScrapeRefresh(s.threads[t])
  {
    assert v < |s.threads|;
    if s.threads[v].InFlight() { InFlightIsUnique(s, t, v); }
    if s.threads[v].LoopTicked? && s.threads[t].origin == Loop { LoopIsAlone(cfg, s, t, v); }
  }

  lemma FinishKeepsSettled<T>(cfg: Config<T>, s: State<T>, t: nat, reported: Status)
    requires Inv(cfg, s) && Settled(s) && Enabled(cfg, s, Finish(t, reported))
    requires Echoes(StoreOf(s.threads[t], reported))
    ensures Settled(Apply(cfg, s, Finish(t, reported)))
  {
    var s' := Apply(cfg, s, Finish(t, reported));
    var now := s.threads[t].now;
    OnlyFinishStores(cfg, s, Finish(t, reported));
    assert Attempt(StoreOf(s.threads[t], reported)) == now == LastAttempt(s'.stores);
    forall v | 0 <= v < |s'.threads| && Pending(s'.threads[v])
      ensures s'.threads[v].LoopTicked? && (s.stores != [] ==> now <= s'.threads[v].now)
    {
      PendingAfterFinish(cfg, s, t, reported, v);
    }
    hide Apply, Inv;
  }

  lemma MoveKeepsSettled<T>(cfg: Config<T>, s: State<T>, step: Step<T>)
    requires cfg.Valid() && Inv(cfg, s) && Settled(s) && Enabled(cfg, s, step) && !step.Finish?
    requires Samples(step) ==> NoLater(s, step.now)
    ensures Settled(Apply(cfg, s, step))
  {
    var s' := Apply(cfg, s, step);
    OnlyFinishStores(cfg, s, step);
    if step.Begin? && s.stores != [] {
      ScrapeRefreshesStale(cfg, s, step.t);
    }
    hide Inv, Enabled;
    forall v | 0 <= v < |s'.threads| && Pending(s'.threads[v])
      ensures s.stores != [] && (|s.stores| >= 2 || ScrapeRefresh(s'.threads[v])) ==>
                LastAttempt(s.stores) <= s'.threads[v].now
      ensures s.stores != [] && ScrapeRefresh(s'.threads[v]) ==> TicksFrom(s', s'.threads[v].now)
    {
      PendingAfter(cfg, s, step, v);
      forall u | 0 <= u < |s'.threads| && s'.threads[u].LoopTicked? && s.stores != [] && ScrapeRefresh(s'.threads[v])
        ensures s'.threads[v].now <= s'.threads[u].now
      {
        PendingAfter(cfg, s, step, u);
      }
    }
  }

  lemma SettledKept<T>(cfg: Config<T>, s: State<T>, step: Step<T>)
    requires cfg.Valid() && Inv(cfg, s) && Settled(s) && Enabled(cfg, s, step)
    requires Samples(step) ==> NoLater(s, step.now)
    requires AllEcho(Apply(cfg, s, step).stores)
    ensures Settled(Apply(cfg, s, step))
  {
    hide Inv, Settled, NoLater;
    if step.Finish? {
      OnlyFinishStores(cfg, s, step);
      assert Echoes(Apply(cfg, s, step).stores[|s.stores|]);
      FinishKeepsSettled(cfg, s, step.t, step.reported);
    } else {
      MoveKeepsSettled(cfg, s, step);
    }
  }

  lemma {:induction false} RunsAreSettled<T>(cfg: Config<T>, run: Run<T>, i: nat)
    requires cfg.Valid() && run.Valid(cfg) && i < |run.states|
    requires Forward(run, i) && AllEcho(run.states[i].stores)
    ensures Settled(run.states[i])
  {
    hide *;
    if i == 0 {
      SettledAtStart(cfg, run);
    } else {
      RunShape(cfg, run, i);
      EchoedBefore(cfg, run, i - 1, i);
      RunsAreSettled(cfg, run, i - 1);
      ReachableInv(cfg, run, i - 1);
      ReadingIsLatest(cfg, run, i - 1);
      RunStep(cfg, run, i - 1);
      SettledKept(cfg, run.states[i - 1], run.steps[i - 1]);
    }
  }

  lemma SettledAtStart<T>(cfg: Config<T>, run: Run<T>)
    requires run.Valid(cfg)
    ensures |run.states| > 0 && Settled(run.states[0])
  {
  }

  lemma RunStep<T>(cfg: Config<T>, run: Run<T>, i: nat)
    requires run.Valid(cfg) && i < |run.steps|
    ensures i + 1 < |run.states| && Enabled(cfg, run.states[i], run.steps[i])
    ensures run.states[i + 1] == Apply(cfg, run.states[i], run.steps[i])
  {
    hide Apply, Enabled;
  }

  /** With any scrapes, loops and restarts, attempts go back at the second store or never. */
  lemma OnlySecondStoreMayBeOlder<T>(cfg: Config<T>, run: Run<T>, i: nat, k: nat)
    requires cfg.Valid() && run.Valid(cfg) && i < |run.states| && 2 <= k < |run.states[i].stores|
    requires Forward(run, i) && AllEcho(run.states[i].stores)
    ensures Attempt(run.states[i].stores[k - 1]) <= Attempt(run.states[i].stores[k])
  {
    RunsAreSettled(cfg, run, i);
  }

  // ---- When the second store is older ----

  /** Scrape begin `b` happened while thread `u` stood at the tick `p`, with an earlier reading. */
  ghost predicate Passed<T>(run: Run<T>, b: nat, u: nat, p: Phase<T>) {
    && b < |run.steps| && b < |run.states| && run.steps[b].Begin?
    && var s, t := run.states[b], run.steps[b].t;
       && t < |s.threads| && u < |s.threads| && s.threads[u] == p
       && s.threads[t].AtTop? && p.LoopTicked? && p.now < s.threads[t].now
  }

  /** A scrape took the flag at `b` while a tick with an earlier reading was pending, and that
      tick's refresh began at `c`, after the first store. */
  ghost predicate Overtakes<T>(run: Run<T>, b: nat, c: nat) {
    && b < c < |run.steps| && c < |run.states| && run.steps[c].LoopBegin?
    && var s, u := run.states[c], run.steps[c].t;
       && |s.stores| == 1 && u < |s.threads| && Passed(run, b, u, s.threads[u])
  }

  ghost predicate AnyOvertaken<T>(run: Run<T>, i: nat) {
    exists b: nat, c: nat :: c < i && Overtakes(run, b, c)
  }

  ghost predicate PassedBefore<T>(run: Run<T>, i: nat, u: nat, p: Phase<T>) {
    exists b: nat :: b < i && Passed(run, b, u, p)
  }

  ghost predicate EarlierTicksPassed<T>(run: Run<T>, i: nat, s: State<T>, now: Time) {
    forall u :: 0 <= u < |s.threads| && s.threads[u].LoopTicked? && s.threads[u].now < now ==>
      PassedBefore(run, i, u, s.threads[u])
  }

  /** Why a pending tick, or a refresh in flight, is older than what comes before it. */
  ghost predicate Explained<T>(run: Run<T>, i: nat, s: State<T>) {
    && (s.stores == [] ==>
          forall t :: 0 <= t < |s.threads| && s.threads[t].InFlight() ==>
            EarlierTicksPassed(run, i, s, s.threads[t].now))
    && (|s.stores| == 1 ==> EarlierTicksPassed(run, i, s, Attempt(s.stores[0])))
    && (|s.stores| == 1 ==>
          forall t :: 0 <= t < |s.threads| && s.threads[t].InFlight() && s.threads[t].now < Attempt(s.stores[0]) ==>
            AnyOvertaken(run, i))
    && (|s.stores| >= 2 && Attempt(s.stores[1]) < Attempt(s.stores[0]) ==> AnyOvertaken(run, i))
  }

  lemma TicksStayPassed<T>(run: Run<T>, i: nat, u: nat, p: Phase<T>)
    ensures PassedBefore(run, i, u, p) ==> PassedBefore(run, i + 1, u, p)
    ensures AnyOvertaken(run, i) ==> AnyOvertaken(run, i + 1)
  {
    if AnyOvertaken(run, i) {
      var b: nat, c: nat :| c < i && Overtakes(run, b, c);
      assert c < i + 1;
    }
  }

  lemma FinishKeepsExplained<T>(cfg: Config<T>, run: Run<T>, i: nat)
    requires run.Valid(cfg) && i < |run.steps| && run.steps[i].Finish?
    requires Inv(cfg, run.states[i]) && Explained(run, i, run.states[i])
    requires Echoes(StoreOf(run.states[i].threads[run.steps[i].t], run.steps[i].reported))
    ensures Explained(run, i + 1, run.states[i + 1])
  {
    var s, s', step := run.states[i], run.states[i + 1], run.steps[i];
    OnlyFinishStores(cfg, s, step);
    assert Attempt(StoreOf(s.threads[step.t], step.reported)) == s.threads[step.t].now;
    assert s.threads[step.t].InFlight();
    TicksStayPassed(run, i, 0, s.threads[step.t]);
    forall v | 0 <= v < |s'.threads| && Pending(s'.threads[v])
      ensures s'.threads[v].LoopTicked? && v < |s.threads| && s.threads[v] == s'.threads[v]
      ensures PassedBefore(run, i, v, s'.threads[v]) ==> PassedBefore(run, i + 1, v, s'.threads[v])
    {
      PendingAfterFinish(cfg, s, step.t, step.reported, v);
      TicksStayPassed(run, i, v, s'.threads[v]);
    }
    hide Apply, Inv, Enabled, PassedBefore, AnyOvertaken;
  }

  /** A tick of a moving state was passed before, is passed now, or has read the latest time. */
  lemma TickStaysExplained<T>(cfg: Config<T>, run: Run<T>, i: nat, u: nat, now: Time)
    requires run.Valid(cfg) && i < |run.steps| && !run.steps[i].Finish? && u < |run.states[i + 1].threads|
    requires run.states[i + 1].threads[u].LoopTicked? && run.states[i + 1].threads[u].now < now
    requires Samples(run.steps[i]) ==> now <= run.steps[i].now
    requires EarlierTicksPassed(run, i, run.states[i], now)
    ensures PassedBefore(run, i + 1, u, run.states[i + 1].threads[u])
  {
    PendingAfter(cfg, run.states[i], run.steps[i], u);
    TicksStayPassed(run, i, u, run.states[i + 1].threads[u]);
    hide Apply, Enabled, PassedBefore;
    TickUnmoved(cfg, run.states[i], run.steps[i], u);
  }

  lemma TickUnmoved<T>(cfg: Config<T>, s: State<T>, step: Step<T>, u: nat)
    requires Enabled(cfg, s, step) && u < |Apply(cfg, s, step).threads| && Apply(cfg, s, step).threads[u].LoopTicked?
    ensures (Samples(step) && Apply(cfg, s, step).threads[u] == LoopTicked(step.now))
            || (u < |s.threads| && s.threads[u] == Apply(cfg, s, step).threads[u])
  {
  }

  lemma LoopBeginLeavesNoTick<T>(cfg: Config<T>, s: State<T>, t: nat)
    requires Inv(cfg, s) && Enabled(cfg, s, LoopBegin(t))
    ensures TicksNever(Apply(cfg, s, LoopBegin(t)))
  {
    var s' := Apply(cfg, s, LoopBegin(t));
    forall u | 0 <= u < |s'.threads|
      ensures !s'.threads[u].LoopTicked?
    {
      if u != t && s.threads[u].LoopTicked? { LoopIsAlone(cfg, s, t, u); }
    }
  }

  ghost predicate TicksNever<T>(s: State<T>) {
    forall u :: 0 <= u < |s.threads| ==> !s.threads[u].LoopTicked?
  }

  lemma TicksNeverPassed<T>(run: Run<T>, i: nat, s: State<T>, now: Time)
    requires TicksNever(s)
    ensures EarlierTicksPassed(run, i, s, now)
  {
  }

  /** The scrape that takes the flag passes every pending tick with an earlier reading. */
  lemma BeginPassesTicks<T>(cfg: Config<T>, run: Run<T>, i: nat)
    requires run.Valid(cfg) && i < |run.steps| && run.steps[i].Begin? && run.steps[i].t < |run.states[i].threads|
    requires run.states[i].threads[run.steps[i].t].AtTop?
    ensures EarlierTicksPassed(run, i + 1, run.states[i + 1], run.states[i].threads[run.steps[i].t].now)
  {
    var s, s', t := run.states[i], run.states[i + 1], run.steps[i].t;
    forall u | 0 <= u < |s'.threads| && s'.threads[u].LoopTicked? && s'.threads[u].now < s.threads[t].now
      ensures PassedBefore(run, i + 1, u, s'.threads[u])
    {
      TickUnmoved(cfg, s, run.steps[i], u);
      assert Passed(run, i, u, s'.threads[u]);
    }
  }

  lemma TicksStayExplained<T>(cfg: Config<T>, run: Run<T>, i: nat, now: Time)
    requires run.Valid(cfg) && i < |run.steps| && !run.steps[i].Finish?
    requires Samples(run.steps[i]) ==> now <= run.steps[i].now
    requires EarlierTicksPassed(run, i, run.states[i], now)
    ensures EarlierTicksPassed(run, i + 1, run.states[i + 1], now)
  {
    var s' := run.states[i + 1];
    forall u | 0 <= u < |s'.threads| && s'.threads[u].LoopTicked? && s'.threads[u].now < now
      ensures PassedBefore(run, i + 1, u, s'.threads[u])
    {
      hide EarlierTicksPassed, PassedBefore;
      TickStaysExplained(cfg, run, i, u, now);
    }
  }

  /** Before the first store: a refresh in flight. */
  lemma InFlightStaysExplained<T>(cfg: Config<T>, run: Run<T>, i: nat, t: nat)
    requires run.Valid(cfg) && i < |run.steps| && !run.steps[i].Finish? && Inv(cfg, run.states[i])
    requires run.states[i].stores == [] && Explained(run, i, run.states[i])
    requires Samples(run.steps[i]) ==> NoLater(run.states[i], run.steps[i].now)
    requires t < |run.states[i + 1].threads| && run.states[i + 1].threads[t].InFlight()
    ensures EarlierTicksPassed(run, i + 1, run.states[i + 1], run.states[i + 1].threads[t].now)
  {
    var s, s', step := run.states[i], run.states[i + 1], run.steps[i];
    PendingAfter(cfg, s, step, t);
    if step == Begin(t) {
      hide Apply, Enabled, Inv, EarlierTicksPassed;
      BeginPassesTicks(cfg, run, i);
    } else if step == LoopBegin(t) {
      LoopBeginLeavesNoTick(cfg, s, t);
      TicksNeverPassed(run, i + 1, s', s'.threads[t].now);
    } else {
      hide Apply, Enabled, Inv, EarlierTicksPassed;
      TicksStayExplained(cfg, run, i, s'.threads[t].now);
    }
  }

  /** After the first store: a refresh in flight that is older began on a passed tick. */
  lemma OlderRefreshWasOvertaken<T>(cfg: Config<T>, run: Run<T>, i: nat, t: nat)
    requires cfg.Valid() && run.Valid(cfg) && i < |run.steps| && !run.steps[i].Finish? && Inv(cfg, run.states[i])
    requires |run.states[i].stores| == 1 && Explained(run, i, run.states[i])
    requires t < |run.states[i + 1].threads| && run.states[i + 1].threads[t].InFlight()
    requires run.states[i + 1].threads[t].now < Attempt(run.states[i].stores[0])
    ensures AnyOvertaken(run, i + 1)
  {
    var s, s', step := run.states[i], run.states[i + 1], run.steps[i];
    PendingAfter(cfg, s, step, t);
    TicksStayPassed(run, i, t, s'.threads[t]);
    if step == Begin(t) {
      ScrapeRefreshesStale(cfg, s, t);
    } else if step == LoopBegin(t) {
      assert PassedBefore(run, i, t, s.threads[t]);
      var b: nat :| b < i && Passed(run, b, t, s.threads[t]);
      assert Overtakes(run, b, i);
    }
  }

  lemma MoveKeepsExplained<T>(cfg: Config<T>, run: Run<T>, i: nat)
    requires cfg.Valid() && run.Valid(cfg) && i < |run.steps| && !run.steps[i].Finish?
    requires Inv(cfg, run.states[i]) && Explained(run, i, run.states[i])
    requires Samples(run.steps[i]) ==> NoLater(run.states[i], run.steps[i].now)
    ensures Explained(run, i + 1, run.states[i + 1])
  {
    hide Apply, Enabled, Inv, EarlierTicksPassed, AnyOvertaken;
    var s, s', step := run.states[i], run.states[i + 1], run.steps[i];
    OnlyFinishStores(cfg, s, step);
    TicksStayPassed(run, i, 0, AtTop(0));
    forall t | 0 <= t < |s'.threads| && s'.threads[t].InFlight()
      ensures s.stores == [] ==> EarlierTicksPassed(run, i + 1, s', s'.threads[t].now)
      ensures |s.stores| == 1 && s'.threads[t].now < Attempt(s.stores[0]) ==> AnyOvertaken(run, i + 1)
    {
      if s.stores == [] {
        InFlightStaysExplained(cfg, run, i, t);
      } else if |s.stores| == 1 && s'.threads[t].now < Attempt(s.stores[0]) {
        OlderRefreshWasOvertaken(cfg, run, i, t);
      }
    }
    if |s.stores| == 1 {
      TicksStayExplained(cfg, run, i, Attempt(s.stores[0]));
    }
  }

  lemma ExplainedKept<T>(cfg: Config<T>, run: Run<T>, i: nat)
    requires cfg.Valid() && run.Valid(cfg) && i < |run.steps|
    requires Inv(cfg, run.states[i]) && Explained(run, i, run.states[i])
    requires Samples(run.steps[i]) ==> NoLater(run.states[i], run.steps[i].now)
    requires AllEcho(run.states[i + 1].stores)
    ensures Explained(run, i + 1, run.states[i + 1])
  {
    hide Inv, Explained, NoLater, Apply;
    if run.steps[i].Finish? {
      OnlyFinishStores(cfg, run.states[i], run.steps[i]);
      assert Echoes(run.states[i + 1].stores[|run.states[i].stores|]);
      FinishKeepsExplained(cfg, run, i);
    } else {
      MoveKeepsExplained(cfg, run, i);
    }
  }

  lemma {:induction false} RunsAreExplained<T>(cfg: Config<T>, run: Run<T>, i: nat)
    requires cfg.Valid() && run.Valid(cfg) && i < |run.states|
    requires Forward(run, i) && AllEcho(run.states[i].stores)
    ensures Explained(run, i, run.states[i])
  {
    hide *;
    if i == 0 {
      ExplainedAtStart(cfg, run);
    } else {
      RunShape(cfg, run, i);
      EchoedBefore(cfg, run, i - 1, i);
      RunsAreExplained(cfg, run, i - 1);
      ReachableInv(cfg, run, i - 1);
      ReadingIsLatest(cfg, run, i - 1);
      ExplainedKept(cfg, run, i - 1);
    }
  }

  lemma RunShape<T>(cfg: Config<T>, run: Run<T>, i: nat)
    requires run.Valid(cfg) && 0 < i < |run.states|
    ensures |run.states| == |run.steps| + 1
    ensures Forward(run, i) ==> Forward(run, i - 1)
  {
  }

  lemma ExplainedAtStart<T>(cfg: Config<T>, run: Run<T>)
    requires run.Valid(cfg)
    ensures |run.states| > 0 && Explained(run, 0, run.states[0])
  {
  }

  // ---- An overtaken tick makes the second store older ----

  /** The refresh that thread `t` began at `b` is the next store, as soon as there is one. */
  ghost predicate Becomes<T>(s: State<T>, t: nat, now: Time, n: nat) {
    || (|s.stores| == n && t < |s.threads| && s.threads[t].InFlight() && s.threads[t].now == now)
    || (|s.stores| > n && s.stores[n].refreshTime == now)
  }

  lemma BeginBecomes<T>(cfg: Config<T>, s: State<T>, step: Step<T>)
    requires Enabled(cfg, s, step) && (step.Begin? || step.LoopBegin?)
    ensures step.t < |s.threads| && (s.threads[step.t].AtTop? || s.threads[step.t].LoopTicked?)
    ensures Becomes(Apply(cfg, s, step), step.t, s.threads[step.t].now, |s.stores|)
    ensures !s.shared.refreshing
  {
  }

  lemma BecomesKept<T>(cfg: Config<T>, s: State<T>, step: Step<T>, t: nat, now: Time, n: nat)
    requires Inv(cfg, s) && Enabled(cfg, s, step) && Becomes(s, t, now, n)
    ensures Becomes(Apply(cfg, s, step), t, now, n)
  {
    if |s.stores| == n && step.Finish? { InFlightIsUnique(s, t, step.t); }
  }

  lemma {:induction false} RefreshBecomesStore<T>(cfg: Config<T>, run: Run<T>, b: nat, i: nat)
    requires run.Valid(cfg) && b < i < |run.states| && (run.steps[b].Begin? || run.steps[b].LoopBegin?)
    ensures run.steps[b].t < |run.states[b].threads|
    ensures run.states[b].threads[run.steps[b].t].AtTop? || run.states[b].threads[run.steps[b].t].LoopTicked?
    ensures Becomes(run.states[i], run.steps[b].t, run.states[b].threads[run.steps[b].t].now, |run.states[b].stores|)
  {
    hide Apply, Enabled, Inv, Becomes;
    BeginBecomes(cfg, run.states[b], run.steps[b]);
    if b < i - 1 {
      RefreshBecomesStore(cfg, run, b, i - 1);
      ReachableInv(cfg, run, i - 1);
      BecomesKept(cfg, run.states[i - 1], run.steps[i - 1], run.steps[b].t,
                  run.states[b].threads[run.steps[b].t].now, |run.states[b].stores|);
    }
  }

  lemma FlagFreeMeansStored<T>(s: State<T>, t: nat, now: Time, n: nat)
    requires SingleFlight(s) && !s.shared.refreshing && Becomes(s, t, now, n)
    ensures |s.stores| > n && s.stores[n].refreshTime == now
  {
  }

  /** Beside a loop a scrape takes the flag only while nothing is stored. */
  lemma ScrapeBesideLoopIsFirst<T>(cfg: Config<T>, s: State<T>, t: nat, u: nat)
    requires Inv(cfg, s) && Enabled(cfg, s, Begin(t)) && u < |s.threads| && s.threads[u].LoopTicked?
    ensures s.stores == []
  {
    assert s.threads[u].LiveLoop();
  }

  lemma OvertakenIsOlder<T>(cfg: Config<T>, run: Run<T>, b: nat, c: nat, i: nat)
    requires run.Valid(cfg) && Overtakes(run, b, c) && c < i < |run.states| && |run.states[i].stores| >= 2
    ensures run.states[i].stores[1].refreshTime < run.states[i].stores[0].refreshTime
  {
    hide Apply, Enabled, Inv;
    var u := run.steps[c].t;
    ReachableInv(cfg, run, b);
    ScrapeBesideLoopIsFirst(cfg, run.states[b], run.steps[b].t, u);
    RefreshBecomesStore(cfg, run, b, c);
    BeginBecomes(cfg, run.states[c], run.steps[c]);
    ReachableInv(cfg, run, c);
    InvHasSingleFlight(cfg, run.states[c]);
    FlagFreeMeansStored(run.states[c], run.steps[b].t, run.states[b].threads[run.steps[b].t].now, 0);
    RefreshBecomesStore(cfg, run, c, i);
    StoresGrow(cfg, run, c, i);
    assert run.states[i].stores[0] == run.states[c].stores[0];
  }

  lemma InvHasSingleFlight<T>(cfg: Config<T>, s: State<T>)
    requires Inv(cfg, s)
    ensures SingleFlight(s)
  {
  }

  /** With a clock that does not go back and statuses that echo the refresh time, attempt times
      go back in a run exactly when a scrape overtook a pending tick of a loop before the first
      store, and that tick's refresh was stored next. */
  lemma AttemptsGoBackIffOvertaken<T>(cfg: Config<T>, run: Run<T>, i: nat)
    requires cfg.Valid() && run.Valid(cfg) && i < |run.states|
    requires Forward(run, i) && AllEcho(run.states[i].stores)
    ensures !Ordered(run.states[i].stores) <==> |run.states[i].stores| >= 2 && AnyOvertaken(run, i)
  {
    hide Apply, Enabled, Inv;
    var stores := run.states[i].stores;
    RunsAreExplained(cfg, run, i);
    RunsAreSettled(cfg, run, i);
    if |stores| >= 2 {
      assert Echoes(stores[0]) && Echoes(stores[1]);
      if AnyOvertaken(run, i) {
        var b: nat, c: nat :| c < i && Overtakes(run, b, c);
        OvertakenIsOlder(cfg, run, b, c, i);
        assert Attempt(stores[1]) < Attempt(stores[0]);
      }
    }
  }

  /** What a caller can see to: if no scrape arrives before the first store, attempt times never
      go back, whatever loops are started and stopped. */
  lemma LateScrapesKeepOrder<T>(cfg: Config<T>, run: Run<T>, i: nat)
    requires cfg.Valid() && run.Valid(cfg) && i < |run.states|
    requires Forward(run, i) && AllEcho(run.states[i].stores)
    requires forall k :: 0 <= k < i && run.steps[k].Arrive? ==> run.states[k].stores != []
    ensures Ordered(run.states[i].stores)
  {
    hide Apply, Enabled, Inv, Ordered, AllEcho;
    AttemptsGoBackIffOvertaken(cfg, run, i);
    if AnyOvertaken(run, i) {
      var b: nat, c: nat :| c < i && Overtakes(run, b, c);
      var t := run.steps[b].t;
      ReachableInv(cfg, run, b);
      ScrapeBesideLoopIsFirst(cfg, run.states[b], t, run.steps[c].t);
      forall k | 0 <= k < b
        ensures !run.steps[k].Arrive?
      {
        StoresGrow(cfg, run, k, b);
      }
      NobodyScrapesBeforeArriving(cfg, run, b);
      assert false;
    }
  }

  lemma {:induction false} OrderedSpan<T>(stores: seq<Store<T>>, i: nat, j: nat)
    requires Ordered(stores) && i <= j < |stores|
    ensures Attempt(stores[i]) <= Attempt(stores[j])
  {
    if i < j { OrderedSpan(stores, i, j - 1); }
  }

  lemma OrderedLastSuccess<T>(early: seq<Store<T>>, late: seq<Store<T>>)
    requires early <= late && Ordered(late) && AnySuccess(early)
    ensures LastSuccess(early) <= LastSuccess(late)
  {
    var a := LastSuccessIsAnAttempt(early);
    assert late[a] == early[a];
    var b := LastSuccessIsAnAttempt(late);
    assert a <= b;
    OrderedSpan(late, a, b);
  }

  /** So with or without loops the last-success time never goes back unless a tick was overtaken. */
  lemma LastSuccessKeepsOrder<T>(cfg: Config<T>, run: Run<T>, i: nat, j: nat)
    requires cfg.Valid() && run.Valid(cfg) && i <= j < |run.states|
    requires Forward(run, j) && AllEcho(run.states[j].stores) && !AnyOvertaken(run, j)
    requires AnySuccess(run.states[i].stores)
    ensures run.states[i].shared.view.lastSuccess <= run.states[j].shared.view.lastSuccess
  {
    hide Apply, Enabled, AnyOvertaken, AllEcho, Forward, Ordered, AnySuccess;
    AttemptsGoBackIffOvertaken(cfg, run, j);
    StoresGrow(cfg, run, i, j);
    ReachableInv(cfg, run, i);
    ReachableInv(cfg, run, j);
    OrderedLastSuccess(run.states[i].stores, run.states[j].stores);
  }

  // ---- An absolute bound on retries ----

  /** A scrape whose new reading is within the interval of the last attempt is served at its next
      look, however many refreshes are stored before it, as long as attempts do not go back. So
      it retries again only if that reading is an interval past the refresh that woke it. */
  lemma FreshReadingIsServed<T>(cfg: Config<T>, run: Run<T>, t: nat, now: Time, i: nat, j: nat)
    requires run.Valid(cfg) && i <= j < |run.states|
    requires t < |run.states[i].threads| && run.states[i].threads[t] == AtTop(now)
    requires run.states[i].stores != [] && now - LastAttempt(run.states[i].stores) < cfg.interval
    requires forall k :: i <= k < j ==> !ActsAs(run.steps[k], t)
    requires Ordered(run.states[j].stores)
    ensures t < |run.states[j].threads| && run.states[j].threads[t] == AtTop(now)
    ensures Decide(cfg.interval, run.states[j].shared, now) == Serve
    ensures j < |run.steps| && ActsAs(run.steps[j], t) ==> run.steps[j] == Hit(t)
  {
    OthersStayWithinRely(cfg, run, t, i, j);
    StoresGrow(cfg, run, i, j);
    var early, late := run.states[i].stores, run.states[j].stores;
    assert late[|early| - 1] == early[|early| - 1];
    OrderedSpan(late, |early| - 1, |late| - 1);
    ReachableInv(cfg, run, j);
    ShowsLastAttempt(cfg, run.states[j]);
    hide Inv, Apply, Rely, Ordered;
  }

  lemma ShowsLastAttempt<T>(cfg: Config<T>, s: State<T>)
    requires Inv(cfg, s) && s.stores != []
    ensures s.shared.initialized && s.shared.view.status.attempt == LastAttempt(s.stores)
  {
  }

  // ---- It happens ----

  /** A refresh that is begun, carried through and stored as a success, with no other thread acting. */
  lemma RefreshStored<T>(cfg: Config<T>, run: Run<T>, begin: Step<T>, value: T) returns (longer: Run<T>)
    requires run.Valid(cfg) && (begin.Begin? || begin.LoopBegin?) && Enabled(cfg, run.states[|run.steps|], begin)
    ensures longer.Valid(cfg) && run.states <= longer.states && |longer.steps| == |run.steps| + 3
    ensures longer.steps ==
            run.steps + [begin, CallReturns(begin.t, value, 0, 0), Finish(begin.t, Status(ZERO_TIME, true))]
    ensures var s, s' := run.states[|run.steps|], longer.states[|longer.steps|]; var t := begin.t;
            && t < |s.threads| == |s'.threads| && (s.threads[t].AtTop? || s.threads[t].LoopTicked?)
            && s'.stores == s.stores + [Store(value, Status(ZERO_TIME, true), 0, s.threads[t].now)]
            && s'.shared.view.lastSuccess == s.threads[t].now && !s'.shared.refreshing
            && forall u :: 0 <= u < |s.threads| && u != t && !s.threads[u].Asleep? ==> s'.threads[u] == s.threads[u]
  {
    longer := Extend(cfg, run, begin);
    longer := Extend(cfg, longer, CallReturns(begin.t, value, 0, 0));
    longer := Extend(cfg, longer, Finish(begin.t, Status(ZERO_TIME, true)));
  }

  /** A run on a clock that only moves forward, with one loop and one scrape, in which the
      last-success time goes back: the loop read its tick before it took the lock. */
  lemma LoopMayStoreOlderAttempt<T>(cfg: Config<T>, s0: State<T>, value: T) returns (run: Run<T>)
    requires cfg.Valid() && Initial(cfg, s0)
    ensures run.Valid(cfg) && run.states[0] == s0 && |run.states| == 10
    ensures Forward(run, 9) && AllEcho(run.states[9].stores) && AnyOvertaken(run, 9)
    ensures run.states[6].shared.view.lastSuccess == 20 && run.states[9].shared.view.lastSuccess == 10
    ensures AnySuccess(run.states[6].stores)
  {
    run := Run([s0], []);
    run := Extend(cfg, run, Start);
    run := Extend(cfg, run, FirstTick(0, 10));
    run := Extend(cfg, run, Arrive(20));
    run := RefreshStored(cfg, run, Begin(1), value);
    assert run.states[6].stores[0].Effective().success;
    run := RefreshStored(cfg, run, LoopBegin(0), value);
    hide Apply, Enabled;
    assert Overtakes(run, 3, 6);
  }
}
