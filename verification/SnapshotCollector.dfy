/** The collector object. Each critical section of the source is one method; the ghost field
    `machine` is the protocol state of all threads, which every method moves by one step, and
    `run` is the run that led to it. */
module SnapshotCollectors {
  import opened Basics
  import opened Histograms
  import opened SnapshotProtocol
  import opened SnapshotRuns
  import opened SnapshotTraces

  const DEFAULT_REFRESH_INTERVAL: int := 300_000_000_000

  /** What a scrape carries away: its histogram is a private copy. */
  datatype SnapshotState<T> =
    SnapshotState(snapshot: T, status: Status, lastSuccess: Time, histogram: DurationHistogram)
  {
    ghost function Seen(): View<T>
      reads histogram, histogram.buckets
    {
      View(snapshot, status, lastSuccess, histogram.Value())
    }
  }

  /** A tick of a refresh loop, with what a refresh begun on it would yield. */
  datatype TickEvent<T> = TickEvent(now: Time, value: T, reported: Status, started: Time, ended: Time) {
    function Result(): Store<T> {
      Store(value, reported, Elapsed(started, ended), now)
    }
  }

  /** The history grew, and ends in the result of the tick if that was stored. */
  ghost predicate Appended<T>(before: seq<Store<T>>, after: seq<Store<T>>, stored: bool, tick: TickEvent<T>) {
    && before <= after
    && (stored ==> |before| < |after| && after[|after| - 1] == tick.Result())
  }

  /** The stores at the places `own`, all after the first `from`, are the results of the ticks
      `used`, in the order of the ticks. */
  ghost predicate Made<T>(stores: seq<Store<T>>, from: nat, own: seq<nat>, ticks: seq<TickEvent<T>>, used: seq<nat>) {
    && |own| == |used|
    && (forall i :: 0 <= i < |own| ==>
          from <= own[i] < |stores| && used[i] < |ticks| && stores[own[i]] == ticks[used[i]].Result())
    && forall i, j :: 0 <= i < j < |own| ==> own[i] < own[j] && used[i] < used[j]
  }

  /** Of the first tick and the later ones, `used` are those that were stored. */
  ghost predicate Tells(began: bool, dones: seq<bool>, used: seq<nat>) {
    && (began <==> 0 in used)
    && (forall i :: 0 <= i < |dones| ==> (dones[i] <==> i + 1 in used))
    && forall u :: u in used ==> u <= |dones|
  }

  lemma TellsNext(began: bool, dones: seq<bool>, used: seq<nat>, stored: bool)
    requires Tells(began, dones, used)
    ensures forall u :: u in used ==> u < |dones| + 1
    ensures Tells(began, dones + [stored], if stored then used + [|dones| + 1] else used)
  {
  }

  lemma MadeNothing<T>(stores: seq<Store<T>>, from: nat, ticks: seq<TickEvent<T>>)
    ensures Made(stores, from, [], ticks, [])
  {
  }

  lemma MadeOneMore<T>(before: seq<Store<T>>, after: seq<Store<T>>, from: nat, own: seq<nat>,
                       ticks: seq<TickEvent<T>>, used: seq<nat>, stored: bool, n: nat)
    requires Made(before, from, own, ticks, used) && from <= |before| && before <= after
    requires stored ==> n < |ticks| && Appended(before, after, stored, ticks[n])
    requires forall u :: u in used ==> u < n
    ensures before <= after && (stored ==> |before| < |after|)
    ensures if stored then Made(after, from, own + [|after| - 1], ticks, used + [n])
            else Made(after, from, own, ticks, used)
  {
    assert forall i :: 0 <= i < |used| ==> used[i] in used && (used + [n])[i] == used[i];
    assert forall i :: 0 <= i < |own| ==> after[own[i]] == before[own[i]] && (own + [|after| - 1])[i] == own[i];
  }

  lemma AppendedGrows<T>(before: seq<Store<T>>, after: seq<Store<T>>, stored: bool, tick: TickEvent<T>)
    requires Appended(before, after, stored, tick)
    ensures before <= after
  {
  }

  // ---- The steps a thread takes itself ----


  /** A refresh begun by `begin`, carried through. */
  function Refreshing<T>(begin: Step<T>, t: nat, value: T, reported: Status, started: Time, ended: Time): seq<Step<T>> {
    [begin, CallReturns(t, value, started, ended), Finish(t, reported)]
  }

  /** What becomes of a tick that was taken. */
  function Outcome<T>(t: nat, tick: TickEvent<T>, stored: bool): seq<Step<T>> {
    if stored then Refreshing(LoopBegin(t), t, tick.value, tick.reported, tick.started, tick.ended) else [LoopDrop(t)]
  }

  /** The first ticks and what became of each. */
  function Ticked<T>(t: nat, ticks: seq<TickEvent<T>>, stored: seq<bool>): seq<Step<T>>
    requires |ticks| == |stored|
  {
    if ticks == [] then []
    else
      var last := |ticks| - 1;
      Ticked(t, ticks[..last], stored[..last]) + ([Tick(t, ticks[last].now)] + Outcome(t, ticks[last], stored[last]))
  }

  function Opening<T>(t: nat, cancelledAtOnce: bool, first: TickEvent<T>, stored: bool): seq<Step<T>> {
    if cancelledAtOnce then [SkipFirst(t)] else [FirstTick(t, first.now)] + Outcome(t, first, stored)
  }

  lemma TickedNothing<T>(t: nat)
    ensures Ticked<T>(t, [], []) == []
  {
  }

  lemma TickedNext<T>(t: nat, ticks: seq<TickEvent<T>>, i: nat, stored: seq<bool>, next: bool)
    requires i < |ticks| && |stored| == i
    ensures Ticked(t, ticks[..i + 1], stored + [next]) ==
            Ticked(t, ticks[..i], stored) + ([Tick(t, ticks[i].now)] + Outcome(t, ticks[i], next))
  {
    assert ticks[..i + 1][..i] == ticks[..i] && (stored + [next])[..i] == stored;
  }

  // ---- The accounts of a refresh loop ----

  /** The stores counted are results of distinct ticks, in their order, `dones` says what became of
      each tick so far, and the loop took exactly the steps of those ticks. */
  ghost predicate Ledger<T>(from: nat, stores: seq<Store<T>>, start: Run<T>, run: Run<T>, t: nat, cancelledAtOnce: bool,
                            first: TickEvent<T>, ticks: seq<TickEvent<T>>,
                            own: seq<nat>, used: seq<nat>, began: bool, dones: seq<bool>)
  {
    && |dones| <= |ticks| && from <= |stores|
    && Made(stores, from, own, [first] + ticks, used)
    && Tells(began, dones, used)
    && (cancelledAtOnce ==> !began)
    && |own| <= |dones| + (if cancelledAtOnce then 0 else 1)
    && Grew(start, run, t, Opening(t, cancelledAtOnce, first, began) + Ticked(t, ticks[..|dones|], dones))
  }

  lemma LedgerParts<T>(from: nat, stores: seq<Store<T>>, start: Run<T>, run: Run<T>, t: nat, cancelledAtOnce: bool,
                      first: TickEvent<T>, ticks: seq<TickEvent<T>>,
                      own: seq<nat>, used: seq<nat>, began: bool, dones: seq<bool>)
    requires Ledger(from, stores, start, run, t, cancelledAtOnce, first, ticks, own, used, began, dones)
    ensures |dones| <= |ticks| && from <= |stores| && Made(stores, from, own, [first] + ticks, used)
    ensures Tells(began, dones, used) && (cancelledAtOnce ==> !began)
    ensures |own| <= |dones| + (if cancelledAtOnce then 0 else 1)
    ensures Grew(start, run, t, Opening(t, cancelledAtOnce, first, began) + Ticked(t, ticks[..|dones|], dones))
  {
  }

  lemma LedgerHolds<T>(from: nat, stores: seq<Store<T>>, start: Run<T>, run: Run<T>, t: nat, cancelledAtOnce: bool,
                      first: TickEvent<T>, ticks: seq<TickEvent<T>>,
                      own: seq<nat>, used: seq<nat>, began: bool, dones: seq<bool>)
    requires |dones| <= |ticks| && from <= |stores| && Made(stores, from, own, [first] + ticks, used)
    requires Tells(began, dones, used) && (cancelledAtOnce ==> !began)
    requires |own| <= |dones| + (if cancelledAtOnce then 0 else 1)
    requires Grew(start, run, t, Opening(t, cancelledAtOnce, first, began) + Ticked(t, ticks[..|dones|], dones))
    ensures Ledger(from, stores, start, run, t, cancelledAtOnce, first, ticks, own, used, began, dones)
  {
  }

  lemma LedgerOpens<T>(from: nat, stores: seq<Store<T>>, start: Run<T>, run: Run<T>, t: nat, cancelledAtOnce: bool,
                       first: TickEvent<T>, ticks: seq<TickEvent<T>>, stored: bool)
    requires exists before :: |before| == from && Appended(before, stores, stored, first)
    requires cancelledAtOnce ==> !stored
    requires Grew(start, run, t, Opening(t, cancelledAtOnce, first, stored))
    ensures stored ==> |stores| > 0
    ensures Ledger(from, stores, start, run, t, cancelledAtOnce, first, ticks,
                   if stored then [|stores| - 1] else [], if stored then [0] else [], stored, [])
  {
    var before :| |before| == from && Appended(before, stores, stored, first);
    MadeNothing(before, from, [first] + ticks);
    AppendedGrows(before, stores, stored, first);
    MadeOneMore(before, stores, from, [], [first] + ticks, [], stored, 0);
    hide Made, Appended, Grew, Opening, Ticked;
    TickedNothing<T>(t);
    assert ticks[..0] == [];
    assert Opening(t, cancelledAtOnce, first, stored) + [] == Opening(t, cancelledAtOnce, first, stored);
    if stored {
      assert [] + [|stores| - 1] == [|stores| - 1] && [] + [0 as nat] == [0];
    }
  }

  lemma LedgerNext<T>(from: nat, before: seq<Store<T>>, after: seq<Store<T>>,
                      start: Run<T>, middle: Run<T>, run: Run<T>, t: nat, cancelledAtOnce: bool,
                      first: TickEvent<T>, ticks: seq<TickEvent<T>>,
                      own: seq<nat>, used: seq<nat>, began: bool, dones: seq<bool>, stored: bool)
    requires Ledger(from, before, start, middle, t, cancelledAtOnce, first, ticks, own, used, began, dones)
    requires |dones| < |ticks| && Appended(before, after, stored, ticks[|dones|])
    requires Grew(middle, run, t, [Tick(t, ticks[|dones|].now)] + Outcome(t, ticks[|dones|], stored))
    ensures before <= after && (stored ==> |after| > 0)
    ensures Ledger(from, after, start, run, t, cancelledAtOnce, first, ticks,
                   if stored then own + [|after| - 1] else own, if stored then used + [|dones| + 1] else used,
                   began, dones + [stored])
  {
    hide *;
    var n, all := |dones|, [first] + ticks;
    LedgerParts(from, before, start, middle, t, cancelledAtOnce, first, ticks, own, used, began, dones);
    TickFollowsFirst(first, ticks, n);
    AppendedGrows(before, after, stored, ticks[n]);
    TellsNext(began, dones, used, stored);
    MadeOneMore(before, after, from, own, all, used, stored, n + 1);
    GrewBehind(start, middle, run, t, Opening(t, cancelledAtOnce, first, began), Ticked(t, ticks[..n], dones),
               [Tick(t, ticks[n].now)] + Outcome(t, ticks[n], stored));
    TickedNext(t, ticks, n, dones, stored);
    if stored {
      LedgerHolds(from, after, start, run, t, cancelledAtOnce, first, ticks,
                  own + [|after| - 1], used + [n + 1], began, dones + [stored]);
    } else {
      LedgerHolds(from, after, start, run, t, cancelledAtOnce, first, ticks, own, used, began, dones + [stored]);
    }
  }

  lemma TickFollowsFirst<T>(first: TickEvent<T>, ticks: seq<TickEvent<T>>, n: nat)
    requires n < |ticks|
    ensures |[first] + ticks| == |ticks| + 1 && ([first] + ticks)[n + 1] == ticks[n]
  {
  }

  lemma GrewBehind<T>(a: Run<T>, b: Run<T>, c: Run<T>, t: nat, x: seq<Step<T>>, y: seq<Step<T>>, z: seq<Step<T>>)
    requires Grew(a, b, t, x + y) && Grew(b, c, t, z)
    ensures Grew(a, c, t, x + (y + z))
  {
    hide Grew;
    GrewMore(a, b, c, t, x + y, z);
    assert x + y + z == x + (y + z);
  }

  lemma LedgerCloses<T>(from: nat, before: seq<Store<T>>, after: seq<Store<T>>,
                        start: Run<T>, middle: Run<T>, run: Run<T>, t: nat, cancelledAtOnce: bool,
                        first: TickEvent<T>, ticks: seq<TickEvent<T>>,
                        own: seq<nat>, used: seq<nat>, began: bool, dones: seq<bool>)
    requires Ledger(from, before, start, middle, t, cancelledAtOnce, first, ticks, own, used, began, dones)
    requires |dones| == |ticks| && before <= after && Grew(middle, run, t, [SeeCancel(t), Step.RecordExit(t)])
    ensures Made(after, from, own, [first] + ticks, used) && Tells(began, dones, used) && (cancelledAtOnce ==> !began)
    ensures |own| <= |ticks| + if cancelledAtOnce then 0 else 1
    ensures Grew(start, run, t, Opening(t, cancelledAtOnce, first, began) + Ticked(t, ticks, dones)
                                + [SeeCancel(t), Step.RecordExit(t)])
  {
    hide Made, Grew, Opening, Ticked, Tells;
    TellsNext(began, dones, used, false);
    MadeOneMore(before, after, from, own, [first] + ticks, used, false, |dones| + 1);
    assert ticks[..|dones|] == ticks;
    GrewMore(start, middle, run, t, Opening(t, cancelledAtOnce, first, began) + Ticked(t, ticks, dones),
             [SeeCancel(t), Step.RecordExit(t)]);
  }

  /** A finish wakes every sleeper. */
  lemma NoSleeperAfter<T>(cfg: Config<T>, s: State<T>, t: nat, reported: Status)
    requires Enabled(cfg, s, Finish(t, reported))
    ensures var s' := Apply(cfg, s, Finish(t, reported));
            forall u :: 0 <= u < |s'.threads| ==> !s'.threads[u].Asleep?
  {
  }

  function Again<T>(t: nat, naps: nat): seq<Step<T>> {
    if naps == 0 then [] else Again(t, naps - 1) + [SleepAgain(t)]
  }

  lemma AgainNothing<T>(t: nat)
    ensures Again<T>(t, 0) == []
  {
  }

  lemma AgainNext<T>(t: nat, naps: nat)
    ensures Again<T>(t, naps + 1) == Again(t, naps) + [SleepAgain(t)]
  {
  }

  /** The rounds of a scrape that ended in waiting: in each it fell asleep, slept again `naps`
      times, and took a new reading. */
  function Waited<T>(t: nat, clock: seq<Time>, naps: seq<nat>): seq<Step<T>>
    requires |clock| == |naps|
  {
    if clock == [] then []
    else
      var last := |clock| - 1;
      Waited(t, clock[..last], naps[..last]) + ([Sleep(t)] + (Again(t, naps[last]) + [Recheck(t, clock[last])]))
  }

  lemma WaitedNothing<T>(t: nat)
    ensures Waited<T>(t, [], []) == []
  {
  }

  lemma WaitedNext<T>(t: nat, clock: seq<Time>, i: nat, naps: seq<nat>, next: nat)
    requires i < |clock| && |naps| == i
    ensures Waited<T>(t, clock[..i + 1], naps + [next]) ==
            Waited(t, clock[..i], naps) + ([Sleep(t)] + (Again(t, next) + [Recheck(t, clock[i])]))
  {
    assert clock[..i + 1][..i] == clock[..i] && (naps + [next])[..i] == naps;
  }

  class SnapshotCollector<T> {
    const refreshInterval: int
    const zero: T
    const collectionDuration: DurationHistogram
    var initialized: bool
    var backgroundStarted: bool
    var refreshing: bool
    var snapshot: T
    var snapshotStatus: Status
    var lastSuccessfulCollection: Time
    ghost var machine: State<T>
    ghost var run: Run<T>
    ghost var waits: seq<bool>  // one entry per wait: whether its end was observed

    ghost function Footprint(): set<object>
      reads this, collectionDuration
    {
      {this, collectionDuration, collectionDuration.buckets}
    }

    ghost function Guarded(): Shared<T>
      reads this, collectionDuration, collectionDuration.buckets
    {
      Shared(initialized, backgroundStarted, refreshing,
             View(snapshot, snapshotStatus, lastSuccessfulCollection, collectionDuration.Value()))
    }

    ghost function Cfg(): Config<T> {
      Config(refreshInterval, collectionDuration.bounds, zero)
    }

    ghost predicate Valid()
      reads this, collectionDuration, collectionDuration.buckets
    {
      && collectionDuration.Valid()
      && Cfg().Valid()
      && machine.shared == Guarded()
      && Inv(Cfg(), machine)
      && Reaches(Cfg(), run, machine)
    }

    ghost predicate At(t: nat, p: Phase<T>)
      reads this
    {
      t < |machine.threads| && machine.threads[t] == p
    }

    /** A non-positive interval falls back to the default. */
    constructor (interval: int, bounds: seq<int>, zero: T)
      requires Increasing(bounds)
      ensures Valid() && fresh(Footprint())
      ensures Cfg() == Config(if interval <= 0 then 5 * 60 * 1_000_000_000 else interval, bounds, zero)
      ensures Initial(Cfg(), machine) && run.steps == [] && waits == []
    {
      refreshInterval := if interval <= 0 then DEFAULT_REFRESH_INTERVAL else interval;
      this.zero := zero;
      initialized, backgroundStarted, refreshing := false, false, false;
      snapshot, snapshotStatus, lastSuccessfulCollection := zero, Status(ZERO_TIME, false), ZERO_TIME;
      collectionDuration := new DurationHistogram(bounds);
      var noHistogram := Histogram(0, 0, map[]);
      machine := State(Shared(false, false, false, View(zero, Status(ZERO_TIME, false), ZERO_TIME, noHistogram)),
                       [], {}, []);
      new;
      machine := machine.(shared := Guarded());
      assert Durations<T>([]) == [];
      run, waits := Run([machine], []), [];
    }

    // ---- Steps of the protocol state ----

    /** Moves the protocol state, and the run, by one step; `t` did or did not take it itself. */
    ghost method Take(step: Step<T>, t: nat)
      requires Inv(Cfg(), machine) && Reaches(Cfg(), run, machine) && Enabled(Cfg(), machine, step)
      modifies this`machine, this`run
      ensures Inv(Cfg(), machine) && Reaches(Cfg(), run, machine)
      ensures machine == Apply(Cfg(), old(machine), step)
      ensures run == Longer(old(run), step, machine)
      ensures Grew(old(run), run, t, if ActsAs(step, t) then [step] else [])
    {
      hide *;
      InvKept(Cfg(), machine, step);
      ReachesNext(Cfg(), run, machine, step);
      machine := Apply(Cfg(), machine, step);
      GrewOne(run, step, machine, t);
      run := Longer(run, step, machine);
    }

    /** A step that leaves the guarded fields alone: arrivals, snapshotter returns, ticks, wake-ups
        and cancellations. */
    ghost method Move(step: Step<T>, t: nat)
      requires Valid() && Enabled(Cfg(), machine, step)
      requires Apply(Cfg(), machine, step).shared == machine.shared
      modifies this`machine, this`run
      ensures Valid() && machine == Apply(Cfg(), old(machine), step)
      ensures run == Longer(old(run), step, machine)
      ensures Grew(old(run), run, t, if ActsAs(step, t) then [step] else [])
    {
      Take(step, t);
    }

    /** The steps of a woken scrape, and the tick of a loop. */
    ghost method Nap(t: nat)
      requires Valid() && At(t, Woken) && refreshing
      modifies this`machine, this`run
      ensures Valid() && At(t, Asleep) && machine.stores == old(machine.stores)
      ensures Grew(old(run), run, t, [SleepAgain(t)])
    {
      hide Complete, Increasing, Grew, Reaches;
      Move(SleepAgain(t), t);
    }

    ghost method LookAgain(now: Time, t: nat)
      requires Valid() && At(t, Woken) && !refreshing
      modifies this`machine, this`run
      ensures Valid() && At(t, AtTop(now)) && machine.stores == old(machine.stores)
      ensures Grew(old(run), run, t, [Recheck(t, now)])
    {
      hide Complete, Increasing, Grew, Reaches;
      Move(Recheck(t, now), t);
    }

    ghost method TakeTick(now: Time, t: nat)
      requires Valid() && At(t, LoopSelecting)
      modifies this`machine, this`run
      ensures Valid() && At(t, LoopTicked(now)) && machine.stores == old(machine.stores)
      ensures Grew(old(run), run, t, [Tick(t, now)])
    {
      hide Complete, Increasing, Grew, Reaches;
      Move(Tick(t, now), t);
    }

    // ---- The critical sections ----

    /** The copy shows the guarded view and is never written again. */
    method SnapshotStateLocked() returns (state: SnapshotState<T>)
      requires collectionDuration.Valid()
      ensures fresh(state.histogram) && fresh(state.histogram.buckets)
      ensures state.Seen() == Guarded().view
    {
      var copy := collectionDuration.Clone();
      state := SnapshotState(snapshot, snapshotStatus, lastSuccessfulCollection, copy);
    }

    method StoreSnapshotLocked(value: T, reported: Status, duration: int, refreshTime: Time)
      requires collectionDuration.Valid()
      modifies Footprint()
      ensures collectionDuration.Valid() && Footprint() == old(Footprint())
      ensures machine == old(machine) && run == old(run) && waits == old(waits)
      ensures initialized && snapshot == value && snapshotStatus.success == reported.success
      ensures reported.attempt != ZERO_TIME ==> snapshotStatus.attempt == reported.attempt
      ensures reported.attempt == ZERO_TIME ==> snapshotStatus.attempt == refreshTime
      ensures lastSuccessfulCollection ==
              if reported.success then snapshotStatus.attempt else old(lastSuccessfulCollection)
      ensures collectionDuration.count == old(collectionDuration.count) + 1
      ensures collectionDuration.sum == old(collectionDuration.sum) + duration
      ensures Guarded() ==
              Stored(old(Guarded()), Store(value, reported, duration, refreshTime)).(refreshing := old(refreshing))
    {
      var status := reported;
      if status.attempt == ZERO_TIME {
        status := status.(attempt := refreshTime);
      }
      if status.success {
        lastSuccessfulCollection := status.attempt;
      }
      snapshot := value;
      snapshotStatus := status;
      collectionDuration.Observe(duration);
      initialized := true;
    }

    /** A scrape at the top of its loop: serve, wait, or take the in-flight flag. */
    method LookAtTop(now: Time, ghost t: nat) returns (decision: Decision, state: Option<SnapshotState<T>>)
      requires Valid() && At(t, AtTop(now))
      modifies this
      ensures Valid() && Footprint() == old(Footprint())
      ensures decision == Decide(refreshInterval, old(Guarded()), now)
      ensures decision == Serve <==>
              old(initialized && (backgroundStarted || now - snapshotStatus.attempt < refreshInterval))
      ensures decision == Wait <==> decision != Serve && old(refreshing)
      ensures decision == Collect ==> refreshing
      ensures decision == Serve <==> state.Some?
      ensures waits == old(waits)
      ensures Grew(old(run), run, t,
                   [match decision case Serve => Hit(t) case Wait => Sleep(t) case Collect => Begin(t)])
      ensures state.Some? ==> fresh(state.value.histogram) && fresh(state.value.histogram.buckets)
      ensures machine == Apply(Cfg(), old(machine),
                               match decision case Serve => Hit(t) case Wait => Sleep(t) case Collect => Begin(t))
      ensures machine.stores == old(machine.stores)
      ensures state.Some? ==> backgroundStarted || now - state.value.status.attempt < refreshInterval
      ensures match decision
              case Serve => At(t, Returned(state.value.Seen())) && machine.stores != []
                            && Reflects(Cfg(), state.value.Seen(), machine.stores)
              case Wait => At(t, Asleep)
              case Collect => At(t, Calling(Scrape, now))
    {
      hide Complete, Increasing, Grew, Reaches;
      if initialized && (backgroundStarted || now - snapshotStatus.attempt < refreshInterval) {
        var served := SnapshotStateLocked();
        Move(Hit(t), t);
        return Serve, Some(served);
      }
      if refreshing {
        Move(Sleep(t), t);
        return Wait, None;
      }
      Take(Begin(t), t);
      refreshing := true;
      return Collect, None;
    }

    /** The last critical section of a scrape's own refresh. */
    method FinishScrape(value: T, reported: Status, duration: int, now: Time, ghost t: nat)
      returns (state: SnapshotState<T>)
      requires Valid() && At(t, Collected(Scrape, now, value, duration))
      modifies Footprint()
      ensures Valid() && Footprint() == old(Footprint())
      ensures fresh(state.histogram) && fresh(state.histogram.buckets)
      ensures machine == Apply(Cfg(), old(machine), Finish(t, reported))
      ensures !refreshing && (forall u :: 0 <= u < |machine.threads| ==> !machine.threads[u].Asleep?)
      ensures waits == old(waits) && Grew(old(run), run, t, [Finish(t, reported)])
      ensures ShowsRefresh(state, value, reported, duration, now,
                           old(lastSuccessfulCollection), old(collectionDuration.sum))
      ensures At(t, Returned(state.Seen())) && Reflects(Cfg(), state.Seen(), machine.stores)
      ensures machine.stores == old(machine.stores) + [Store(value, reported, duration, now)]
    {
      hide Apply, Reflects, Inv, Grew, Reaches, Complete, Increasing, Observed;
      FinishEffect(Cfg(), machine, t, reported);
      StoreSnapshotLocked(value, reported, duration, now);
      refreshing := false;
      state := SnapshotStateLocked();
      NoSleeperAfter(Cfg(), machine, t, reported);
      Take(Finish(t, reported), t);
    }

    /** What a state says about the refresh it comes from, and about the ones before that. */
    ghost predicate ShowsRefresh(state: SnapshotState<T>, value: T, reported: Status, duration: int, refreshTime: Time,
                          lastSuccess: Time, sum: int)
      reads state.histogram
    {
      && state.snapshot == value
      && state.status.success == reported.success
      && (reported.attempt != ZERO_TIME ==> state.status.attempt == reported.attempt)
      && (reported.attempt == ZERO_TIME ==> state.status.attempt == refreshTime)
      && state.lastSuccess == (if reported.success then state.status.attempt else lastSuccess)
      && state.histogram.sum == sum + duration
    }

    method BeginRefresh(ghost t: nat, ghost now: Time) returns (begun: bool)
      requires Valid() && At(t, LoopTicked(now))
      modifies this
      ensures Valid() && Footprint() == old(Footprint())
      ensures begun == !old(refreshing) && refreshing
      ensures machine == Apply(Cfg(), old(machine), if begun then LoopBegin(t) else LoopDrop(t))
      ensures waits == old(waits) && Grew(old(run), run, t, [if begun then LoopBegin(t) else LoopDrop(t)])
      ensures machine.stores == old(machine.stores)
      ensures At(t, if begun then Calling(Loop, now) else LoopSelecting)
    {
      hide Complete, Increasing, Grew, Reaches;
      if refreshing {
        Move(LoopDrop(t), t);
        return false;
      }
      Take(LoopBegin(t), t);
      refreshing := true;
      return true;
    }

    method FinishRefresh(value: T, reported: Status, duration: int, refreshTime: Time, ghost t: nat)
      requires Valid() && At(t, Collected(Loop, refreshTime, value, duration))
      modifies Footprint()
      ensures Valid() && Footprint() == old(Footprint())
      ensures machine == Apply(Cfg(), old(machine), Finish(t, reported)) && At(t, LoopSelecting)
      ensures !refreshing && (forall u :: 0 <= u < |machine.threads| ==> !machine.threads[u].Asleep?)
      ensures waits == old(waits) && Grew(old(run), run, t, [Finish(t, reported)])
      ensures machine.stores == old(machine.stores) + [Store(value, reported, duration, refreshTime)]
    {
      hide Apply, Reflects, Inv, Grew, Reaches, Complete, Increasing, Observed;
      FinishEffect(Cfg(), machine, t, reported);
      StoreSnapshotLocked(value, reported, duration, refreshTime);
      refreshing := false;
      NoSleeperAfter(Cfg(), machine, t, reported);
      Take(Finish(t, reported), t);
    }

    method Start() returns (spawned: bool)
      requires Valid()
      modifies this
      ensures Valid() && Footprint() == old(Footprint())
      ensures spawned == !old(backgroundStarted)
      ensures backgroundStarted && machine == Apply(Cfg(), old(machine), Step.Start)
      ensures waits == old(waits) && run == Longer(old(run), Step.Start, machine)
    {
      hide Complete, Increasing, Grew, Reaches, Inv;
      Take(Step.Start, 0);
      if backgroundStarted {
        return false;
      }
      backgroundStarted := true;
      return true;
    }

    method RecordExit(ghost t: nat)
      requires Valid() && At(t, LoopStopping)
      modifies this
      ensures Valid() && Footprint() == old(Footprint())
      ensures machine == Apply(Cfg(), old(machine), Step.RecordExit(t))
      ensures waits == old(waits) && Grew(old(run), run, t, [Step.RecordExit(t)])
      ensures !backgroundStarted && machine.stores == old(machine.stores) && At(t, LoopExited)
    {
      hide Complete, Increasing, Grew, Reaches, Inv;
      Take(Step.RecordExit(t), t);
      backgroundStarted := false;
    }

    // ---- A whole scrape, with other threads running between its critical sections ----

    /** A point at which other threads may run. Callers know only that `t` takes no step, and what
        it may rely on; this body is the schedule in which no thread does. */
    method OthersRun(ghost t: nat)
      requires Valid() && t < |machine.threads|
      modifies Footprint()
      ensures Valid() && Footprint() == old(Footprint()) && waits == old(waits)
      ensures Rely(Cfg(), old(machine), machine, t) && Grew(old(run), run, t, [])
    {
      GrewNone(run, t);
    }

    /** Waiting on the condition variable, while `t` takes no step. `woken` is false when the
        observed part of the run ends while the scrape still sleeps. */
    method CondWait(ghost t: nat) returns (woken: bool)
      requires Valid() && At(t, Asleep)
      modifies Footprint()
      ensures Valid() && Footprint() == old(Footprint()) && waits == old(waits) + [woken]
      ensures Rely(Cfg(), old(machine), machine, t) && Grew(old(run), run, t, [])
      ensures At(t, if woken then Woken else Asleep)
    {
      GrewNone(run, t);
      woken := false;
      waits := waits + [woken];
    }

    /** The inner loop: sleep until the flag is seen clear, then sample the clock again. It gives up
        only when a wait was not seen to end, or after `patience` further sleeps and one more. */
    method AwaitRefresh(now: Time, patience: nat, ghost t: nat) returns (ready: bool, ghost naps: nat)
      requires Valid() && At(t, Asleep)
      modifies Footprint()
      ensures Valid() && Footprint() == old(Footprint())
      ensures if ready then At(t, AtTop(now)) && |old(machine.stores)| < |machine.stores|
              else At(t, Asleep) && |old(machine.stores)| <= |machine.stores|
      ensures ready ==> !refreshing
      ensures Grew(old(run), run, t, if ready then Again(t, naps) + [Recheck(t, now)] else Again(t, naps))
      ensures naps <= patience + 1
      ensures |waits| == |old(waits)| + if naps <= patience then naps + 1 else naps
      ensures old(waits) <= waits && forall i :: |old(waits)| <= i < |waits| - 1 ==> waits[i]
      ensures if ready then naps <= patience && waits[|waits| - 1]
              else naps == patience + 1 || !waits[|waits| - 1]
    {
      hide Complete, Increasing, Grew, Reaches, Apply, Enabled, Inv, Again;
      AgainNothing<T>(t);
      ghost var before := run;
      var woken := CondWait(t);
      var sleeps := 0;
      naps := 0;
      while woken && refreshing
        invariant Valid() && Footprint() == old(Footprint()) && sleeps <= patience
        invariant if woken then At(t, Woken) && |old(machine.stores)| < |machine.stores|
                  else At(t, Asleep) && |old(machine.stores)| <= |machine.stores|
        invariant Grew(before, run, t, Again(t, naps))
        invariant old(waits) <= waits && forall i :: |old(waits)| <= i < |waits| - 1 ==> waits[i]
        invariant |waits| == |old(waits)| + sleeps + 1
        invariant if woken then naps == sleeps && waits[|waits| - 1]
                  else (naps == sleeps && !waits[|waits| - 1]) || (sleeps == patience && naps == patience + 1)
        decreases woken, patience - sleeps
      {
        ghost var awake := run;
        Nap(t);
        GrewMore(before, awake, run, t, Again(t, naps), [SleepAgain(t)]);
        AgainNext<T>(t, naps);
        naps := naps + 1;
        woken := false;
        if sleeps < patience {
          ghost var asleep := run;
          woken := CondWait(t);
          sleeps := sleeps + 1;
          GrewMore(before, asleep, run, t, Again(t, naps), []);
          assert Again<T>(t, naps) + [] == Again(t, naps);
        }
      }
      if woken {
        ghost var seen := run;
        LookAgain(now, t);
        GrewMore(before, seen, run, t, Again(t, naps), [Recheck(t, now)]);
      }
      ready := woken;
    }

    /** The snapshotter runs and returns, with other threads running before and after. The duration
        is the time that went by, or nothing if the clock went back. */
    method CollectSnapshot(origin: Origin, now: Time, value: T, started: Time, ended: Time, ghost t: nat)
      returns (duration: int)
      requires Valid() && At(t, Calling(origin, now))
      modifies Footprint()
      ensures Valid() && Footprint() == old(Footprint()) && waits == old(waits)
      ensures At(t, Collected(origin, now, value, duration)) && machine.stores == old(machine.stores)
      ensures Guarded().view == old(Guarded().view)
      ensures started <= ended ==> duration == ended - started
      ensures ended < started ==> duration == 0
      ensures duration == Elapsed(started, ended)
      ensures Grew(old(run), run, t, [CallReturns(t, value, started, ended)])
    {
      hide Complete, Increasing, Grew, Reaches, Inv;
      ghost var before := run;
      OthersRun(t);
      ghost var calling := run;
      duration := ended - started;
      if duration < 0 {
        duration := 0;
      }
      Move(CallReturns(t, value, started, ended), t);
      ghost var returned := run;
      OthersRun(t);
      GrewMore(before, calling, returned, t, [], [CallReturns(t, value, started, ended)]);
      GrewMore(before, returned, run, t, [] + [CallReturns(t, value, started, ended)], []);
      assert [] + [CallReturns(t, value, started, ended)] + [] == [CallReturns(t, value, started, ended)];
    }

    /** The scrape's own refresh: the snapshotter runs and returns, then the result is stored. The
        histogram grows by the time that went by, or by nothing if the clock went back. */
    method CollectAndStore(now: Time, value: T, reported: Status, started: Time, ended: Time, ghost t: nat)
      returns (state: SnapshotState<T>)
      requires Valid() && At(t, Calling(Scrape, now))
      modifies Footprint()
      ensures Valid() && Footprint() == old(Footprint()) && waits == old(waits)
      ensures fresh(state.histogram) && fresh(state.histogram.buckets)
      ensures At(t, Returned(state.Seen())) && Reflects(Cfg(), state.Seen(), machine.stores)
      ensures machine.stores ==
              old(machine.stores) + [Store(value, reported, Elapsed(started, ended), now)]
      ensures Grew(old(run), run, t, [CallReturns(t, value, started, ended), Finish(t, reported)])
      ensures started <= ended ==> ShowsRefresh(state, value, reported, ended - started, now,
                                                old(lastSuccessfulCollection), old(collectionDuration.sum))
      ensures ended < started ==> ShowsRefresh(state, value, reported, 0, now,
                                               old(lastSuccessfulCollection), old(collectionDuration.sum))
    {
      hide Reflects, Complete, Increasing, Grew, Reaches, Inv, Apply;
      ghost var before := run;
      var duration := CollectSnapshot(Scrape, now, value, started, ended, t);
      ghost var collected := run;
      state := FinishScrape(value, reported, duration, now, t);
      GrewMore(before, collected, run, t, [CallReturns(t, value, started, ended)], [Finish(t, reported)]);
      assert [CallReturns(t, value, started, ended)] + [Finish(t, reported)]
          == [CallReturns(t, value, started, ended), Finish(t, reported)];
    }

    /** Where a result at the reading `look` may come from: a running loop, a cache younger than
        the interval, or the scrape's own refresh. */
    ghost predicate Justified(result: SnapshotState<T>, look: Time, own: Store<T>)
      reads this
    {
      || backgroundStarted
      || look - result.status.attempt < refreshInterval
      || (machine.stores != [] && machine.stores[|machine.stores| - 1] == own)
    }

    /** One round of the scrape's loop: an answer, or asleep behind another refresh. */
    method Round(look: Time, value: T, reported: Status, started: Time, ended: Time, ghost t: nat)
      returns (result: Option<SnapshotState<T>>, ghost own: seq<Step<T>>)
      requires Valid() && At(t, AtTop(look))
      modifies Footprint()
      ensures Valid() && Footprint() == old(Footprint()) && waits == old(waits)
      ensures |old(machine.stores)| <= |machine.stores|
      ensures result.None? ==> At(t, Asleep)
      ensures result.Some? ==>
                && fresh(result.value.histogram) && fresh(result.value.histogram.buckets)
                && At(t, Returned(result.value.Seen()))
                && machine.stores != []
                && Reflects(Cfg(), result.value.Seen(), machine.stores)
                && Justified(result.value, look, Store(value, reported, Elapsed(started, ended), look))
      ensures Grew(old(run), run, t, own)
      ensures if result.None? then own == [Sleep(t)]
              else own == [Hit(t)] || own == Refreshing(Begin(t), t, value, reported, started, ended)
    {
      hide Apply, Enabled, Inv, Reflects, Decide, Fresh, Elapsed, Complete, Increasing, Grew, Reaches;
      ghost var before := run;
      OthersRun(t);
      ghost var looking := run;
      var decision, served := LookAtTop(look, t);
      ghost var looked := run;
      own := match decision case Serve => [Hit(t)] case Wait => [Sleep(t)] case Collect => [Begin(t)];
      GrewMore(before, looking, looked, t, [], own);
      assert [] + own == own;
      if decision != Collect {
        return served, own;
      }
      var state := CollectAndStore(look, value, reported, started, ended, t);
      GrewMore(before, looked, run, t, own, [CallReturns(t, value, started, ended), Finish(t, reported)]);
      own := own + [CallReturns(t, value, started, ended), Finish(t, reported)];
      return Some(state), own;
    }

    /** A whole scrape. `clock` are the readings its retries will get; `value`, `reported`,
        `started` and `ended` are what its own refresh would yield. A result is the fold of the
        whole history at the moment of return, justified at the last reading; each retry was paid
        for by another refresh. The scrape takes exactly the steps of its rounds, `naps` saying how
        often it slept again in each, and gives up only when the readings have run out, a wait was
        not seen to end, or its patience is at an end. */
    method CurrentSnapshot(now: Time, clock: seq<Time>, patience: nat,
                           value: T, reported: Status, started: Time, ended: Time, ghost t: nat)
      returns (result: Option<SnapshotState<T>>, retries: nat, ghost naps: seq<nat>, ghost last: seq<Step<T>>)
      requires Valid() && At(t, AtTop(now))
      modifies Footprint()
      ensures Valid() && Footprint() == old(Footprint())
      ensures |old(machine.stores)| + retries <= |machine.stores| && retries <= |clock|
      ensures result.None? ==> At(t, Asleep)
      ensures result.Some? ==>
                var look := if retries == 0 then now else clock[retries - 1];
                && fresh(result.value.histogram) && fresh(result.value.histogram.buckets)
                && At(t, Returned(result.value.Seen()))
                && machine.stores != []
                && Reflects(Cfg(), result.value.Seen(), machine.stores)
                && Justified(result.value, look, Store(value, reported, Elapsed(started, ended), look))
      ensures |naps| == retries && Grew(old(run), run, t, Waited(t, clock[..retries], naps) + last)
      ensures result.Some? ==>
                last == [Hit(t)] || last == Refreshing(Begin(t), t, value, reported, started, ended)
      ensures result.None? ==>
                || (retries == |clock| && last == [Sleep(t)])
                || (last == [Sleep(t)] + Again(t, patience + 1))
                || (|old(waits)| < |waits| && !waits[|waits| - 1]
                    && exists again: nat :: last == [Sleep(t)] + Again(t, again))
    {
      hide Apply, Enabled, Inv, Reflects, Elapsed, Complete, Increasing, Justified, Grew, Reaches, Waited, Again,
           Refreshing;
      var look := now;
      retries, naps, last := 0, [], [];
      ghost var before, sofar := run, [];
      GrewNone(run, t);
      WaitedNothing<T>(t);
      assert clock[..0] == [];
      while true
        invariant Valid() && Footprint() == old(Footprint()) && retries <= |clock| && |old(waits)| <= |waits|
        invariant look == if retries == 0 then now else clock[retries - 1]
        invariant At(t, AtTop(look)) && |old(machine.stores)| + retries <= |machine.stores|
        invariant |naps| == retries && sofar == Waited(t, clock[..retries], naps) && Grew(before, run, t, sofar)
        decreases |clock| - retries
      {
        ghost var starting := run;
        result, last := Round(look, value, reported, started, ended, t);
        GrewMore(before, starting, run, t, sofar, last);
        if result.Some? || retries == |clock| {
          return;
        }
        ghost var asleep, again := run, 0;
        var ready;
        ready, again := AwaitRefresh(clock[retries], patience, t);
        if !ready {
          GrewMore(before, asleep, run, t, sofar + last, Again(t, again));
          assert sofar + (last + Again(t, again)) == sofar + last + Again(t, again);
          last := last + Again(t, again);
          return;
        }
        GrewMore(before, asleep, run, t, sofar + last, Again(t, again) + [Recheck(t, clock[retries])]);
        WaitedNext<T>(t, clock, retries, naps, again);
        assert sofar + last + (Again(t, again) + [Recheck(t, clock[retries])])
            == sofar + (last + (Again(t, again) + [Recheck(t, clock[retries])]));
        naps := naps + [again];
        look := clock[retries];
        retries := retries + 1;
        sofar := Waited(t, clock[..retries], naps);
      }
    }

    // ---- A whole refresh loop ----

    /** A refresh on a tick: dropped when another is in flight, otherwise stored unmixed. */
    method Refresh(tick: TickEvent<T>, ghost t: nat) returns (stored: bool)
      requires Valid() && At(t, LoopTicked(tick.now))
      modifies Footprint()
      ensures Valid() && Footprint() == old(Footprint())
      ensures stored == !old(refreshing) && At(t, LoopSelecting)
      ensures Grew(old(run), run, t, Outcome(t, tick, stored))
      ensures machine.stores == old(machine.stores) + if stored then [tick.Result()] else []
    {
      hide Complete, Increasing, Grew, Reaches, Inv, Apply;
      ghost var before := run;
      stored := BeginRefresh(t, tick.now);
      if !stored {
        return;
      }
      ghost var begun := run;
      var duration := CollectSnapshot(Loop, tick.now, tick.value, tick.started, tick.ended, t);
      ghost var collected := run;
      FinishRefresh(tick.value, tick.reported, duration, tick.now, t);
      ghost var call, finish := CallReturns(t, tick.value, tick.started, tick.ended), Finish(t, tick.reported);
      GrewMore(before, begun, collected, t, [LoopBegin(t)], [call]);
      GrewMore(before, collected, run, t, [LoopBegin(t)] + [call], [finish]);
      assert [LoopBegin(t)] + [call] + [finish] == Outcome(t, tick, true);
    }

    method OnTick(tick: TickEvent<T>, ghost t: nat) returns (stored: bool)
      requires Valid() && At(t, LoopSelecting)
      modifies Footprint()
      ensures Valid() && Footprint() == old(Footprint()) && At(t, LoopSelecting)
      ensures Appended(old(machine.stores), machine.stores, stored, tick)
      ensures Grew(old(run), run, t, [Tick(t, tick.now)] + Outcome(t, tick, stored))
    {
      hide Complete, Increasing, Grew, Reaches, Outcome, Apply, Enabled, Inv, Elapsed;
      ghost var before := run;
      OthersRun(t);
      ghost var selecting := run;
      TakeTick(tick.now, t);
      ghost var ticked := run;
      OthersRun(t);
      ghost var starting := run;
      stored := Refresh(tick, t);
      GrewMore(before, selecting, ticked, t, [], [Tick(t, tick.now)]);
      GrewMore(before, ticked, starting, t, [] + [Tick(t, tick.now)], []);
      ghost var taken: seq<Step<T>> := [Tick(t, tick.now)];
      assert [] + taken + [] == taken;
      GrewMore(before, starting, run, t, [Tick(t, tick.now)], Outcome(t, tick, stored));
    }

    method FirstRefresh(cancelledAtOnce: bool, first: TickEvent<T>, ghost t: nat) returns (stored: bool)
      requires Valid() && At(t, LoopSpawned) && (cancelledAtOnce <==> t in machine.cancelled)
      modifies Footprint()
      ensures Valid() && Footprint() == old(Footprint()) && At(t, LoopSelecting)
      ensures Appended(old(machine.stores), machine.stores, stored, first)
      ensures cancelledAtOnce ==> !stored && machine.stores == old(machine.stores)
      ensures Grew(old(run), run, t, Opening(t, cancelledAtOnce, first, stored))
    {
      hide Complete, Increasing, Grew, Reaches, Outcome;
      ghost var before := run;
      if cancelledAtOnce {
        Move(SkipFirst(t), t);
        return false;
      }
      Move(FirstTick(t, first.now), t);
      ghost var ticked := run;
      OthersRun(t);
      ghost var starting := run;
      stored := Refresh(first, t);
      GrewMore(before, ticked, starting, t, [FirstTick(t, first.now)], []);
      ghost var taken: seq<Step<T>> := [FirstTick(t, first.now)];
      assert taken + [] == taken;
      GrewMore(before, starting, run, t, [FirstTick(t, first.now)], Outcome(t, first, stored));
    }

    ghost method Cancelled(t: nat)
      requires Valid() && At(t, LoopSelecting)
      modifies this`machine, this`run
      ensures Valid() && At(t, LoopStopping) && machine.stores == old(machine.stores)
      ensures Grew(old(run), run, t, [SeeCancel(t)])
    {
      hide Complete, Increasing, Grew, Reaches;
      ghost var before := run;
      Move(Cancel(t), t);
      ghost var cancelled := run;
      Move(SeeCancel(t), t);
      GrewMore(before, cancelled, run, t, [], [SeeCancel(t)]);
      ghost var seen: seq<Step<T>> := [SeeCancel(t)];
      assert [] + seen == seen;
    }

    method OnDone(ghost t: nat)
      requires Valid() && At(t, LoopSelecting)
      modifies Footprint()
      ensures Valid() && Footprint() == old(Footprint())
      ensures At(t, LoopExited) && !backgroundStarted && old(machine.stores) <= machine.stores
      ensures Grew(old(run), run, t, [SeeCancel(t), Step.RecordExit(t)])
    {
      hide Complete, Increasing, Grew, Reaches;
      ghost var before := run;
      OthersRun(t);
      ghost var selecting := run;
      Cancelled(t);
      ghost var stopping := run;
      OthersRun(t);
      ghost var exiting := run;
      RecordExit(t);
      GrewMore(before, selecting, stopping, t, [], [SeeCancel(t)]);
      GrewMore(before, stopping, exiting, t, [] + [SeeCancel(t)], []);
      GrewMore(before, exiting, run, t, [] + [SeeCancel(t)] + [], [Step.RecordExit(t)]);
      ghost var seen: seq<Step<T>> := [SeeCancel(t)];
      assert [] + seen + [] + [Step.RecordExit(t)] == [SeeCancel(t), Step.RecordExit(t)];
    }

    /** From spawn to recorded exit: a first refresh unless the context is already cancelled, the
        given ticks, then the cancellation. Each refresh counted is the store of one tick of its
        own, at the place `own` names, in the order of the ticks. The loop takes exactly the steps
        of all its ticks, and `dones` says of each whether it was stored or dropped. */
    method RefreshLoop(cancelledAtOnce: bool, first: TickEvent<T>, ticks: seq<TickEvent<T>>, ghost t: nat)
      returns (refreshes: nat, ghost own: seq<nat>, ghost used: seq<nat>, ghost began: bool, ghost dones: seq<bool>)
      requires Valid() && At(t, LoopSpawned) && (cancelledAtOnce <==> t in machine.cancelled)
      modifies Footprint()
      ensures Valid() && Footprint() == old(Footprint())
      ensures At(t, LoopExited) && !backgroundStarted && old(machine.stores) <= machine.stores
      ensures refreshes == |own| && Made(machine.stores, |old(machine.stores)|, own, [first] + ticks, used)
      ensures refreshes <= |ticks| + if cancelledAtOnce then 0 else 1
      ensures cancelledAtOnce ==> !began
      ensures |dones| == |ticks| && Tells(began, dones, used)
      ensures Grew(old(run), run, t, Opening(t, cancelledAtOnce, first, began) + Ticked(t, ticks, dones)
                                     + [SeeCancel(t), Step.RecordExit(t)])
    {
      hide *;
      ghost var start, from := run, |machine.stores|;
      var stored := FirstRefresh(cancelledAtOnce, first, t);
      refreshes, own, used, began, dones := 0, [], [], stored, [];
      AppendedGrows(old(machine.stores), machine.stores, stored, first);
      LedgerOpens(from, machine.stores, start, run, t, cancelledAtOnce, first, ticks, stored);
      if stored {
        refreshes, own, used := 1, [|machine.stores| - 1], [0];
      }
      for i := 0 to |ticks|
        invariant Valid() && Footprint() == old(Footprint()) && At(t, LoopSelecting)
        invariant old(machine.stores) <= machine.stores && refreshes == |own| && |dones| == i
        invariant Ledger(from, machine.stores, start, run, t, cancelledAtOnce, first, ticks, own, used, began, dones)
      {
        ghost var earlier, selecting := machine.stores, run;
        stored := OnTick(ticks[i], t);
        AppendedGrows(earlier, machine.stores, stored, ticks[i]);
        LedgerNext(from, earlier, machine.stores, start, selecting, run, t, cancelledAtOnce, first, ticks,
                   own, used, began, dones, stored);
        if stored {
          refreshes, own, used := refreshes + 1, own + [|machine.stores| - 1], used + [i + 1];
        }
        dones := dones + [stored];
      }
      ghost var earlier, selecting := machine.stores, run;
      OnDone(t);
      LedgerCloses(from, earlier, machine.stores, start, selecting, run, t, cancelledAtOnce, first, ticks,
                   own, used, began, dones);
    }
  }
}
