/** What the snapshot protocol guarantees over whole runs. */
module SnapshotRuns {
  import opened Basics
  import opened SnapshotProtocol

  /** The kinds of step the accounting lemmas count. */
  datatype Kind = AnyBegin | ScrapeBegin | AnyFinish | RecheckBy(thread: nat) | AnyBy(thread: nat)

  predicate Matches<T>(kind: Kind, step: Step<T>) {
    match kind
    case AnyBegin => step.Begin? || step.LoopBegin?
    case ScrapeBegin => step.Begin?
    case AnyFinish => step.Finish?
    case RecheckBy(t) => step.Recheck? && step.t == t
    case AnyBy(t) => ActsAs(step, t)
  }

  function One<T>(kind: Kind, step: Step<T>): nat {
    if Matches(kind, step) then 1 else 0
  }

  function CountSteps<T>(steps: seq<Step<T>>, kind: Kind): nat {
    if steps == [] then 0
    else CountSteps(steps[..|steps| - 1], kind) + One(kind, steps[|steps| - 1])
  }

  lemma CountNext<T>(steps: seq<Step<T>>, a: nat, i: nat, kind: Kind)
    requires a <= i < |steps|
    ensures CountSteps(steps[a..i + 1], kind) == CountSteps(steps[a..i], kind) + One(kind, steps[i])
  {
    assert steps[a..i + 1] == steps[a..i] + [steps[i]];
    assert steps[a..i + 1][..i - a] == steps[a..i];
  }

  // ---- Linearizable reads ----

  /** A finished scrape stays as it is, and the history only grows. */
  lemma StepKeepsPast<T>(cfg: Config<T>, s: State<T>, step: Step<T>)
    requires Enabled(cfg, s, step)
    ensures s.stores <= Apply(cfg, s, step).stores
    ensures |s.threads| <= |Apply(cfg, s, step).threads|
    ensures forall t :: 0 <= t < |s.threads| && (s.threads[t].Returned? || s.threads[t].LoopExited?) ==>
              Apply(cfg, s, step).threads[t] == s.threads[t]
  {
  }

  /** At state `j` scrape `t` has just returned the view of exactly the stores made so far,
      having been inside its call one step earlier. */
  ghost predicate ReadAt<T>(cfg: Config<T>, run: Run<T>, t: nat, j: nat)
    requires run.Valid(cfg)
  {
    && 0 < j < |run.states|
    && t < |run.states[j - 1].threads| && t < |run.states[j].threads|
    && run.states[j - 1].threads[t].ActiveScrape()
    && run.states[j].threads[t] == Returned(run.states[j].shared.view)
    && run.states[j].stores != []
    && Reflects(cfg, run.states[j].shared.view, run.states[j].stores)
    && JustifiedRead(cfg, run.states[j - 1], t)
  }

  /** A read is either served while a loop keeps the cache warm, or younger than the refresh
      interval at the time the scrape looked, or the scrape's own refresh. */
  ghost predicate JustifiedRead<T>(cfg: Config<T>, before: State<T>, t: nat)
    requires t < |before.threads|
  {
    var p := before.threads[t];
    || (p.Collected? && p.origin == Scrape)
    || (p.AtTop? && before.shared.backgroundStarted)
    || (p.AtTop? && p.now - before.shared.view.status.attempt < cfg.interval)
  }

  /** What scrape `t` holds as its result in state `i` is what it read at `j`. */
  ghost predicate LinearizedAt<T>(cfg: Config<T>, run: Run<T>, t: nat, i: nat, j: nat)
    requires run.Valid(cfg)
  {
    && j <= i < |run.states| && t < |run.states[i].threads|
    && ReadAt(cfg, run, t, j)
    && run.states[j].threads[t] == run.states[i].threads[t]
    && run.states[j].stores <= run.states[i].stores
  }

  lemma ReturnIsARead<T>(cfg: Config<T>, s: State<T>, step: Step<T>, t: nat)
    requires Inv(cfg, s) && Enabled(cfg, s, step)
    requires t < |Apply(cfg, s, step).threads| && Apply(cfg, s, step).threads[t].Returned?
    requires t >= |s.threads| || !s.threads[t].Returned?
    ensures t < |s.threads| && s.threads[t].ActiveScrape() && JustifiedRead(cfg, s, t)
    ensures Apply(cfg, s, step).threads[t] == Returned(Apply(cfg, s, step).shared.view)
    ensures Apply(cfg, s, step).stores != []
  {
  }

  /** Every value a scrape returns is the fold of one non-empty prefix of the run's stores, and
      that prefix was the whole history at an instant inside the call. */
  lemma {:induction false} LinearizableRead<T>(cfg: Config<T>, run: Run<T>, t: nat, i: nat)
    requires run.Valid(cfg) && i < |run.states|
    requires t < |run.states[i].threads| && run.states[i].threads[t].Returned?
    ensures exists j: nat :: LinearizedAt(cfg, run, t, i, j)
  {
    var s, step := run.states[i - 1], run.steps[i - 1];
    ReachableInv(cfg, run, i - 1);
    if t < |s.threads| && s.threads[t].Returned? {
      LinearizableRead(cfg, run, t, i - 1);
      StepKeepsPast(cfg, s, step);
      var j: nat :| LinearizedAt(cfg, run, t, i - 1, j);
      assert LinearizedAt(cfg, run, t, i, j);
    } else {
      ReturnIsARead(cfg, s, step, t);
      ReachableInv(cfg, run, i);
      assert LinearizedAt(cfg, run, t, i, i);
    }
  }

  // ---- Single flight and the accounting of refreshes ----

  ghost function Begun<T>(s: State<T>): nat {
    |s.stores| + if s.shared.refreshing then 1 else 0
  }

  lemma StepBegins<T>(cfg: Config<T>, s: State<T>, step: Step<T>)
    requires Inv(cfg, s) && Enabled(cfg, s, step)
    ensures Begun(Apply(cfg, s, step)) == Begun(s) + One(AnyBegin, step)
  {
    if step.Finish? {
      assert s.threads[step.t].InFlight();
    }
  }

  /** Refreshes begun are refreshes recorded, plus the one in flight if there is one. */
  lemma {:induction false} BegunAreRecorded<T>(cfg: Config<T>, run: Run<T>, i: nat)
    requires run.Valid(cfg) && i < |run.states|
    ensures CountSteps(run.steps[0..i], AnyBegin) ==
            run.states[i].shared.view.histogram.count + if run.states[i].shared.refreshing then 1 else 0
    ensures run.states[i].shared.view.histogram.count == |run.states[i].stores|
  {
    ReachableInv(cfg, run, i);
    if i > 0 {
      BegunAreRecorded(cfg, run, i - 1);
      ReachableInv(cfg, run, i - 1);
      StepBegins(cfg, run.states[i - 1], run.steps[i - 1]);
      CountNext(run.steps, 0, i - 1, AnyBegin);
    }
  }

  // ---- Progress ----

  /** What the outside world supplies when a thread asks: the clock, a snapshot, a status. */
  datatype Inputs<T> = Inputs(now: Time, snapshot: T, reported: Status, started: Time, ended: Time)

  ghost function Holder<T>(s: State<T>): (h: nat)
    requires SingleFlight(s) && s.shared.refreshing
    ensures OnlyInFlight(s, h)
  {
    var h: nat :| OnlyInFlight(s, h); h
  }

  ghost function Advance<T>(s: State<T>, u: nat, input: Inputs<T>): Step<T>
    requires u < |s.threads|
  {
    if s.threads[u].Calling? then CallReturns(u, input.snapshot, input.started, input.ended)
    else Finish(u, input.reported)
  }

  /** Schedules only the scrape `t` and, while it sleeps, the refresh it waits for. */
  ghost function NextStep<T>(cfg: Config<T>, s: State<T>, t: nat, input: Inputs<T>): Step<T>
    requires Inv(cfg, s) && t < |s.threads|
  {
    var p := s.threads[t];
    if p.AtTop? then
      match Decide(cfg.interval, s.shared, p.now)
      case Serve => Hit(t)
      case Wait => Sleep(t)
      case Collect => Begin(t)
    else if p.Woken? then
      if s.shared.refreshing then SleepAgain(t) else Recheck(t, input.now)
    else if p.Asleep? then Advance(s, Holder(s), input)
    else Advance(s, t, input)
  }

  ghost function HolderDistance<T>(s: State<T>): nat
    requires SingleFlight(s) && s.shared.refreshing
  {
    if s.threads[Holder(s)].Calling? then 6 else 5
  }

  /** How many scheduled steps scrape `t` is away from returning. */
  ghost function Distance<T>(cfg: Config<T>, s: State<T>, t: nat): nat
    requires Inv(cfg, s) && t < |s.threads|
  {
    var p := s.threads[t];
    if !p.ActiveScrape() then 0
    else match p
    case AtTop(now) =>
      (match Decide(cfg.interval, s.shared, now)
       case Serve => 1
       case Collect => 3
       case Wait => 1 + HolderDistance(s))
    case Woken => if s.shared.refreshing then 1 + HolderDistance(s) else 4
    case Asleep => HolderDistance(s)
    case Calling(_, _) => 2
    case Collected(_, _, _, _) => 1
    case _ => 0
  }

  lemma HolderKept<T>(s: State<T>, s': State<T>)
    requires SingleFlight(s) && s.shared.refreshing && SingleFlight(s') && s'.shared.refreshing
    requires OnlyInFlight(s', Holder(s))
    ensures Holder(s') == Holder(s)
  {
    assert s'.threads[Holder(s')].InFlight();
  }

  /** The holder of the flag always has a step, and it brings sleepers closer to their return. */
  lemma HolderAdvances<T>(cfg: Config<T>, s: State<T>, t: nat, input: Inputs<T>)
    requires Inv(cfg, s) && t < |s.threads| && s.threads[t].Asleep?
    ensures s.shared.refreshing && Enabled(cfg, s, Advance(s, Holder(s), input))
    ensures var s' := Apply(cfg, s, Advance(s, Holder(s), input));
            && Inv(cfg, s')
            && t < |s'.threads| && (s'.threads[t].Asleep? || s'.threads[t].Woken?)
            && Distance(cfg, s', t) < Distance(cfg, s, t)
  {
    var h := Holder(s);
    var step := Advance(s, h, input);
    InvKept(cfg, s, step);
    var s' := Apply(cfg, s, step);
    if s.threads[h].Calling? {
      assert OnlyInFlight(s', h);
      HolderKept(s, s');
    }
  }

  /** Falling asleep does not disturb the refresh in flight. */
  lemma SleepAdvances<T>(cfg: Config<T>, s: State<T>, t: nat, step: Step<T>)
    requires Inv(cfg, s) && Enabled(cfg, s, step) && step in {Sleep(t), SleepAgain(t)}
    ensures var s' := Apply(cfg, s, step);
            && Inv(cfg, s')
            && t < |s'.threads| && s'.threads[t].Asleep?
            && Distance(cfg, s', t) < Distance(cfg, s, t)
  {
    InvKept(cfg, s, step);
    var s' := Apply(cfg, s, step);
    assert OnlyInFlight(s', Holder(s));
    HolderKept(s, s');
  }

  /** No deadlock: while a scrape is unfinished, it or the refresh it waits for can step, and
      that step brings the scrape strictly closer to its return, whatever the inputs are. */
  lemma ScheduledStepProgresses<T>(cfg: Config<T>, s: State<T>, t: nat, input: Inputs<T>)
    requires Inv(cfg, s) && t < |s.threads| && s.threads[t].ActiveScrape()
    ensures Enabled(cfg, s, NextStep(cfg, s, t, input))
    ensures var s' := Apply(cfg, s, NextStep(cfg, s, t, input));
            && Inv(cfg, s')
            && t < |s'.threads|
            && (s'.threads[t].ActiveScrape() || s'.threads[t].Returned?)
            && Distance(cfg, s', t) < Distance(cfg, s, t)
  {
    var step := NextStep(cfg, s, t, input);
    if s.threads[t].Asleep? {
      HolderAdvances(cfg, s, t, input);
    } else if step.Sleep? || step.SleepAgain? {
      SleepAdvances(cfg, s, t, step);
    } else {
      InvKept(cfg, s, step);
    }
  }

  /** Running only the schedule of scrape `t` until it has returned. */
  ghost predicate Completes<T>(cfg: Config<T>, s: State<T>, t: nat, inputs: nat -> Inputs<T>, n: nat)
    decreases n
  {
    t < |s.threads| &&
    (s.threads[t].Returned? ||
     (n > 0 && Inv(cfg, s) && Enabled(cfg, s, NextStep(cfg, s, t, inputs(n))) &&
      Completes(cfg, Apply(cfg, s, NextStep(cfg, s, t, inputs(n))), t, inputs, n - 1)))
  }

  lemma {:induction false} CompletesWithin<T>(cfg: Config<T>, s: State<T>, t: nat, inputs: nat -> Inputs<T>, n: nat)
    requires Inv(cfg, s) && t < |s.threads| && (s.threads[t].ActiveScrape() || s.threads[t].Returned?)
    requires Distance(cfg, s, t) <= n
    ensures Completes(cfg, s, t, inputs, n)
    decreases n
  {
    if s.threads[t].ActiveScrape() {
      ScheduledStepProgresses(cfg, s, t, inputs(n));
      CompletesWithin(cfg, Apply(cfg, s, NextStep(cfg, s, t, inputs(n))), t, inputs, n - 1);
    }
  }

  /** From every reachable state every unfinished scrape can return within seven steps taken by
      itself and the one refresh in flight. */
  lemma ScrapeCanAlwaysFinish<T>(cfg: Config<T>, run: Run<T>, i: nat, t: nat, inputs: nat -> Inputs<T>)
    requires run.Valid(cfg) && i < |run.states|
    requires t < |run.states[i].threads| && run.states[i].threads[t].ActiveScrape()
    ensures Completes(cfg, run.states[i], t, inputs, 7)
  {
    ReachableInv(cfg, run, i);
    CompletesWithin(cfg, run.states[i], t, inputs, 7);
  }

  // ---- Retry bound ----

  predicate ArrivesAt<T>(cfg: Config<T>, run: Run<T>, t: nat, a: nat) {
    a < |run.steps| && a < |run.states| && run.steps[a].Arrive? && |run.states[a].threads| == t
  }

  /** A woken scrape holds one wake-up that it has not used yet. */
  function UnusedWakeups<T>(s: State<T>, t: nat): nat {
    if t < |s.threads| && s.threads[t].Woken? then 1 else 0
  }

  /** A retry uses up a wake-up, and only a finishing refresh wakes. */
  lemma StepRetries<T>(cfg: Config<T>, s: State<T>, step: Step<T>, t: nat)
    requires Enabled(cfg, s, step) && t < |s.threads|
    ensures One(RecheckBy(t), step) + UnusedWakeups(Apply(cfg, s, step), t)
            <= UnusedWakeups(s, t) + One(AnyFinish, step)
  {
  }

  lemma ArrivalAddsScrape<T>(cfg: Config<T>, run: Run<T>, t: nat, a: nat)
    requires run.Valid(cfg) && ArrivesAt(cfg, run, t, a)
    ensures t < |run.states[a + 1].threads| && run.states[a + 1].threads[t].AtTop?
  {
  }

  /** The retries of a call so far, plus the one a woken scrape is about to make, are covered
      by refreshes that finished during the call. */
  lemma {:induction false} RetryBound<T>(cfg: Config<T>, run: Run<T>, t: nat, a: nat, i: nat)
    requires run.Valid(cfg) && ArrivesAt(cfg, run, t, a) && a < i < |run.states|
    ensures t < |run.states[i].threads|
    ensures CountSteps(run.steps[a..i], RecheckBy(t)) + UnusedWakeups(run.states[i], t)
            <= CountSteps(run.steps[a..i], AnyFinish)
  {
    CountNext(run.steps, a, i - 1, RecheckBy(t));
    CountNext(run.steps, a, i - 1, AnyFinish);
    if i - 1 > a {
      RetryBound(cfg, run, t, a, i - 1);
      StepRetries(cfg, run.states[i - 1], run.steps[i - 1], t);
      StepKeepsPast(cfg, run.states[i - 1], run.steps[i - 1]);
    } else {
      ArrivalAddsScrape(cfg, run, t, a);
      assert run.steps[a..a] == [];
    }
  }

  /** How many steps a scrape can still take by itself before it has returned or sleeps. */
  function Left<T>(p: Phase<T>): nat {
    match p
    case AtTop(_) => 3
    case Woken => 4
    case Calling(_, _) => 2
    case Collected(_, _, _, _) => 1
    case _ => 0
  }

  predicate OnScrape<T>(p: Phase<T>) { p.ActiveScrape() || p.Returned? }

  /** A step of the scrape uses up one of those; only a finishing refresh that wakes it gives more. */
  lemma StepUsesOne<T>(cfg: Config<T>, s: State<T>, step: Step<T>, t: nat)
    requires Enabled(cfg, s, step) && t < |s.threads| && OnScrape(s.threads[t])
    ensures t < |Apply(cfg, s, step).threads| && OnScrape(Apply(cfg, s, step).threads[t])
    ensures One(AnyBy(t), step) + Left(Apply(cfg, s, step).threads[t]) <= Left(s.threads[t]) + 4 * One(AnyFinish, step)
  {
  }

  /** In every run a call takes at most three steps of its own, and four more for each refresh
      that finished since it arrived: it goes on for ever only if refreshes finish for ever. */
  lemma {:induction false} CallIsBounded<T>(cfg: Config<T>, run: Run<T>, t: nat, a: nat, i: nat)
    requires run.Valid(cfg) && ArrivesAt(cfg, run, t, a) && a < i < |run.states|
    ensures t < |run.states[i].threads| && OnScrape(run.states[i].threads[t])
    ensures CountSteps(run.steps[a..i], AnyBy(t)) + Left(run.states[i].threads[t])
            <= 3 + 4 * CountSteps(run.steps[a..i], AnyFinish)
  {
    hide Apply, Enabled, Matches, CountSteps;
    CountNext(run.steps, a, i - 1, AnyBy(t));
    CountNext(run.steps, a, i - 1, AnyFinish);
    if i - 1 > a {
      CallIsBounded(cfg, run, t, a, i - 1);
      StepUsesOne(cfg, run.states[i - 1], run.steps[i - 1], t);
    } else {
      ArrivalAddsScrape(cfg, run, t, a);
      assert run.steps[a..a] == [];
      CountNone<T>(AnyBy(t));
      CountNone<T>(AnyFinish);
      ArrivalIsNoStep(run.steps[a], t);
    }
  }

  lemma ArrivalIsNoStep<T>(step: Step<T>, t: nat)
    requires step.Arrive?
    ensures One(AnyBy(t), step) == 0
  {
  }

  // ---- At most one live loop ----

  /** A loop that recorded its exit never acts again. */
  lemma {:induction false} ExitedLoopIsSilent<T>(cfg: Config<T>, run: Run<T>, t: nat, i: nat, j: nat)
    requires run.Valid(cfg) && i <= j < |run.states|
    requires t < |run.states[i].threads| && run.states[i].threads[t].LoopExited?
    ensures t < |run.states[j].threads| && run.states[j].threads[t].LoopExited?
    ensures j < |run.steps| ==> run.steps[j] != LoopBegin(t) && !(run.steps[j].Finish? && run.steps[j].t == t)
  {
    if i < j {
      ExitedLoopIsSilent(cfg, run, t, i, j - 1);
      StepKeepsPast(cfg, run.states[j - 1], run.steps[j - 1]);
    }
  }

  /** A loop is recorded as running exactly while one spawned loop has not recorded its exit. */
  lemma OneLoopAtATime<T>(cfg: Config<T>, run: Run<T>, i: nat, t: nat, u: nat)
    requires run.Valid(cfg) && i < |run.states| && t < |run.states[i].threads| && u < |run.states[i].threads|
    requires run.states[i].threads[t].LiveLoop() && run.states[i].threads[u].LiveLoop()
    ensures t == u && run.states[i].shared.backgroundStarted
    ensures i < |run.steps| && run.steps[i].Start? ==> run.states[i + 1] == run.states[i]
  {
    ReachableInv(cfg, run, i);
  }

  // ---- Background mode ----

  /** One more snapshotter call is left to scrapes only before the first refresh has begun. */
  function ScrapeBudget<T>(s: State<T>): nat {
    if !s.shared.initialized && !s.shared.refreshing then 1 else 0
  }

  lemma StepBudget<T>(cfg: Config<T>, s: State<T>, step: Step<T>)
    requires Inv(cfg, s) && Enabled(cfg, s, step) && s.shared.backgroundStarted
    ensures One(ScrapeBegin, step) + ScrapeBudget(Apply(cfg, s, step)) <= ScrapeBudget(s)
    ensures !step.RecordExit? ==> Apply(cfg, s, step).shared.backgroundStarted
  {
    if step.Finish? {
      assert s.threads[step.t].InFlight();
    }
  }

  /** While a loop stays recorded as running, scrapes begin at most one refresh in all, and none
      once a refresh has begun. */
  lemma {:induction false} BackgroundShieldsSource<T>(cfg: Config<T>, run: Run<T>, a: nat, i: nat)
    requires run.Valid(cfg) && a <= i < |run.states|
    requires run.states[a].shared.backgroundStarted
    requires forall k :: a <= k < i ==> !run.steps[k].RecordExit?
    ensures run.states[i].shared.backgroundStarted
    ensures CountSteps(run.steps[a..i], ScrapeBegin) + ScrapeBudget(run.states[i]) <= ScrapeBudget(run.states[a])
  {
    hide Apply, Enabled, Inv, CountSteps, ScrapeBudget, One;
    if a < i {
      BackgroundShieldsSource(cfg, run, a, i - 1);
      CountNext(run.steps, a, i - 1, ScrapeBegin);
      ReachableInv(cfg, run, i - 1);
      StepBudget(cfg, run.states[i - 1], run.steps[i - 1]);
    } else {
      assert run.steps[a..a] == [];
      CountNone<T>(ScrapeBegin);
    }
  }

  lemma {:induction false} CountSplit<T>(steps: seq<Step<T>>, a: nat, i: nat, kind: Kind)
    requires a <= i <= |steps|
    ensures CountSteps(steps[0..i], kind) == CountSteps(steps[0..a], kind) + CountSteps(steps[a..i], kind)
  {
    hide *;
    if a < i {
      CountSplit(steps, a, i - 1, kind);
      CountNext(steps, 0, i - 1, kind);
      CountNext(steps, a, i - 1, kind);
    } else {
      assert steps[a..a] == [];
      CountNone<T>(kind);
    }
  }

  lemma CountNone<T>(kind: Kind)
    ensures CountSteps<T>([], kind) == 0
  {
  }

  ghost predicate Unvisited<T>(s: State<T>) {
    forall t :: 0 <= t < |s.threads| ==> !s.threads[t].ActiveScrape()
  }

  lemma UnvisitedKept<T>(cfg: Config<T>, s: State<T>, step: Step<T>)
    requires Unvisited(s) && Enabled(cfg, s, step) && !step.Arrive?
    ensures Unvisited(Apply(cfg, s, step)) && One(ScrapeBegin, step) == 0
  {
  }

  lemma {:induction false} NobodyScrapesBeforeArriving<T>(cfg: Config<T>, run: Run<T>, a: nat)
    requires run.Valid(cfg) && a < |run.states|
    requires forall k :: 0 <= k < a ==> !run.steps[k].Arrive?
    ensures Unvisited(run.states[a]) && CountSteps(run.steps[0..a], ScrapeBegin) == 0
  {
    hide Apply, Enabled;
    if a > 0 {
      NobodyScrapesBeforeArriving(cfg, run, a - 1);
      UnvisitedKept(cfg, run.states[a - 1], run.steps[a - 1]);
      CountNext(run.steps, 0, a - 1, ScrapeBegin);
    } else {
      assert run.steps[0..0] == [];
    }
  }

  /** If a loop is running before the first scrape arrives and never exits, the scrapes of the
      whole run begin at most one refresh. */
  lemma ScrapesOfAShieldedRun<T>(cfg: Config<T>, run: Run<T>, a: nat, i: nat)
    requires run.Valid(cfg) && a <= i < |run.states|
    requires run.states[a].shared.backgroundStarted
    requires forall k :: 0 <= k < a ==> !run.steps[k].Arrive?
    requires forall k :: a <= k < i ==> !run.steps[k].RecordExit?
    ensures CountSteps(run.steps[0..i], ScrapeBegin) <= 1
  {
    hide Apply, Enabled;
    NobodyScrapesBeforeArriving(cfg, run, a);
    BackgroundShieldsSource(cfg, run, a, i);
    CountSplit(run.steps, a, i, ScrapeBegin);
  }

  // ---- The scrape-side rate limit ----

  /** The status function left the attempt time unset or echoed the refresh time. */
  predicate Echoes<T>(st: Store<T>) {
    st.reported.attempt == ZERO_TIME || st.reported.attempt == st.refreshTime
  }

  ghost predicate Spaced<T>(interval: int, stores: seq<Store<T>>) {
    forall k :: 0 < k < |stores| ==> stores[k].refreshTime - stores[k - 1].Effective().attempt >= interval
  }

  ghost predicate Paced<T>(cfg: Config<T>, s: State<T>) {
    && !s.shared.backgroundStarted
    && Spaced(cfg.interval, s.stores)
    && forall t :: 0 <= t < |s.threads| && s.threads[t].InFlight() && s.stores != [] ==>
         s.threads[t].now - s.stores[|s.stores| - 1].Effective().attempt >= cfg.interval
  }

  lemma PacedKept<T>(cfg: Config<T>, s: State<T>, step: Step<T>)
    requires Inv(cfg, s) && Paced(cfg, s) && Enabled(cfg, s, step) && !step.Start?
    ensures Paced(cfg, Apply(cfg, s, step))
  {
    assert forall u :: 0 <= u < |s.threads| ==> !s.threads[u].LiveLoop();
    if step.Finish? {
      PacedFinish(cfg, s, step);
    } else {
      assert Apply(cfg, s, step).stores == s.stores;
    }
  }

  /** The store spaces itself from the one before it, and nothing is in flight after it. */
  lemma PacedFinish<T>(cfg: Config<T>, s: State<T>, step: Step<T>)
    requires Inv(cfg, s) && Paced(cfg, s) && Enabled(cfg, s, step) && step.Finish?
    ensures Paced(cfg, Apply(cfg, s, step))
  {
    var s' := Apply(cfg, s, step);
    var st := StoreOf(s.threads[step.t], step.reported);
    assert s'.stores == s.stores + [st] && s.threads[step.t].InFlight();
    forall u | 0 <= u < |s'.threads|
      ensures !s'.threads[u].InFlight()
    {
      if s.threads[u].InFlight() { InFlightIsUnique(s, step.t, u); }
    }
    hide Inv;
  }

  /** Without a loop, no scrape refreshes before the stored attempt is an interval old, for any
      clock and any number of scrapes. */
  lemma {:induction false} ScrapesArePaced<T>(cfg: Config<T>, run: Run<T>, i: nat)
    requires run.Valid(cfg) && i < |run.states|
    requires forall k :: 0 <= k < i ==> !run.steps[k].Start?
    ensures Paced(cfg, run.states[i])
  {
    if i > 0 {
      ScrapesArePaced(cfg, run, i - 1);
      ReachableInv(cfg, run, i - 1);
      PacedKept(cfg, run.states[i - 1], run.steps[i - 1]);
    }
  }

  lemma {:induction false} SpacedSpan<T>(interval: int, stores: seq<Store<T>>, i: nat, j: nat)
    requires interval > 0 && Spaced(interval, stores) && i <= j < |stores|
    requires forall k :: 0 <= k < |stores| ==> Echoes(stores[k])
    ensures stores[j].Effective().attempt - stores[i].Effective().attempt >= (j - i) * interval
  {
    if i < j {
      SpacedSpan(interval, stores, i, j - 1);
      assert (j - i) * interval == (j - 1 - i) * interval + interval;
    }
  }

  /** Any two stored attempts are as many intervals apart as refreshes lie between them. */
  lemma RateLimit<T>(cfg: Config<T>, run: Run<T>, i: nat, a: nat, b: nat)
    requires cfg.Valid() && run.Valid(cfg) && i < |run.states|
    requires forall k :: 0 <= k < i ==> !run.steps[k].Start?
    requires forall k :: 0 <= k < |run.states[i].stores| ==> Echoes(run.states[i].stores[k])
    requires a <= b < |run.states[i].stores|
    ensures run.states[i].stores[b].Effective().attempt - run.states[i].stores[a].Effective().attempt
            >= (b - a) * cfg.interval
  {
    ScrapesArePaced(cfg, run, i);
    SpacedSpan(cfg.interval, run.states[i].stores, a, b);
  }

  ghost predicate AnySuccess<T>(stores: seq<Store<T>>) {
    exists k :: 0 <= k < |stores| && stores[k].Effective().success
  }

  lemma {:induction false} LastSuccessIsAnAttempt<T>(stores: seq<Store<T>>) returns (k: nat)
    requires AnySuccess(stores)
    ensures k < |stores| && stores[k].Effective().success && LastSuccess(stores) == stores[k].Effective().attempt
    ensures forall j :: k < j < |stores| ==> !stores[j].Effective().success
  {
    var last := |stores| - 1;
    if stores[last].Effective().success {
      k := last;
    } else {
      k := LastSuccessIsAnAttempt(stores[..last]);
    }
  }

  lemma SpacedLastSuccess<T>(interval: int, early: seq<Store<T>>, late: seq<Store<T>>)
    requires interval > 0 && early <= late && Spaced(interval, late) && AnySuccess(early)
    requires forall k :: 0 <= k < |late| ==> Echoes(late[k])
    ensures LastSuccess(early) <= LastSuccess(late)
  {
    var a := LastSuccessIsAnAttempt(early);
    assert late[a] == early[a];
    var b := LastSuccessIsAnAttempt(late);
    assert a <= b;
    SpacedSpan(interval, late, a, b);
    ProductNonNegative(b - a, interval);
  }

  lemma ProductNonNegative(x: nat, y: nat)
    ensures x * y >= 0
  {
  }

  /** Under the same conditions the last-success time never goes back once there is one. */
  lemma LastSuccessNeverGoesBack<T>(cfg: Config<T>, run: Run<T>, i: nat, j: nat)
    requires cfg.Valid() && run.Valid(cfg) && i <= j < |run.states|
    requires forall k :: 0 <= k < j ==> !run.steps[k].Start?
    requires forall k :: 0 <= k < |run.states[j].stores| ==> Echoes(run.states[j].stores[k])
    requires AnySuccess(run.states[i].stores)
    ensures run.states[i].shared.view.lastSuccess <= run.states[j].shared.view.lastSuccess
  {
    StoresGrow(cfg, run, i, j);
    ReachableInv(cfg, run, i);
    ReachableInv(cfg, run, j);
    ScrapesArePaced(cfg, run, j);
    SpacedLastSuccess(cfg.interval, run.states[i].stores, run.states[j].stores);
  }

  lemma {:induction false} StoresGrow<T>(cfg: Config<T>, run: Run<T>, i: nat, j: nat)
    requires run.Valid(cfg) && i <= j < |run.states|
    ensures run.states[i].stores <= run.states[j].stores
  {
    if i < j {
      StoresGrow(cfg, run, i, j - 1);
      StepKeepsPast(cfg, run.states[j - 1], run.steps[j - 1]);
    }
  }

  lemma Extend<T>(cfg: Config<T>, run: Run<T>, step: Step<T>) returns (longer: Run<T>)
    requires run.Valid(cfg) && Enabled(cfg, run.states[|run.steps|], step)
    ensures longer.Valid(cfg) && run.states <= longer.states && |longer.states| == |run.states| + 1
    ensures longer.states[|run.states|] == Apply(cfg, run.states[|run.steps|], step)
    ensures longer.steps == run.steps + [step]
  {
    hide Apply, Enabled, Initial;
    longer := Run(run.states + [Apply(cfg, run.states[|run.steps|], step)], run.steps + [step]);
  }
}
