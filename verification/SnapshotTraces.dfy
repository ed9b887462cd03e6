/** Which steps of a run one thread took itself, between two moments of the run. */
module SnapshotTraces {
  import opened Basics
  import opened SnapshotProtocol
  import opened SnapshotRuns

  /** The steps that thread `t` took itself. */
  function Own<T>(steps: seq<Step<T>>, t: nat): seq<Step<T>> {
    if steps == [] then []
    else
      var last := steps[|steps| - 1];
      Own(steps[..|steps| - 1], t) + if ActsAs(last, t) then [last] else []
  }

  lemma {:induction false} OwnConcat<T>(a: seq<Step<T>>, b: seq<Step<T>>, t: nat)
    ensures Own(a + b, t) == Own(a, t) + Own(b, t)
  {
    if b == [] {
      assert a + b == a;
    } else {
      assert (a + b)[..|a + b| - 1] == a + b[..|b| - 1];
      OwnConcat(a, b[..|b| - 1], t);
    }
  }

  /** The run is valid and has come to the state `s`. */
  ghost predicate Reaches<T>(cfg: Config<T>, run: Run<T>, s: State<T>) {
    run.Valid(cfg) && run.states[|run.steps|] == s
  }

  function Longer<T>(run: Run<T>, step: Step<T>, s: State<T>): Run<T> {
    Run(run.states + [s], run.steps + [step])
  }

  lemma ReachesNext<T>(cfg: Config<T>, run: Run<T>, s: State<T>, step: Step<T>)
    requires Reaches(cfg, run, s) && Enabled(cfg, s, step)
    ensures Reaches(cfg, Longer(run, step, Apply(cfg, s, step)), Apply(cfg, s, step))
  {
    hide Apply, Enabled, Initial;
  }

  lemma ReachesInv<T>(cfg: Config<T>, run: Run<T>, s: State<T>)
    requires Reaches(cfg, run, s)
    ensures Inv(cfg, s)
  {
    hide Inv, Apply, Enabled, Initial;
    ReachableInv(cfg, run, |run.steps|);
  }

  /** `after` continues `before`, and in between thread `t` itself took exactly the steps `own`. */
  ghost predicate Grew<T>(before: Run<T>, after: Run<T>, t: nat, own: seq<Step<T>>) {
    && before.states <= after.states && before.steps <= after.steps
    && Own(after.steps[|before.steps|..], t) == own
  }

  lemma GrewNone<T>(run: Run<T>, t: nat)
    ensures Grew(run, run, t, [])
  {
  }

  lemma GrewOne<T>(run: Run<T>, step: Step<T>, s: State<T>, t: nat)
    ensures Grew(run, Longer(run, step, s), t, if ActsAs(step, t) then [step] else [])
  {
    hide ActsAs;
    assert (run.steps + [step])[|run.steps|..] == [step];
    assert [step][..0] == [] && Own<T>([], t) == [];
    assert Own([step], t) == if ActsAs(step, t) then [step] else [];
  }

  lemma GrewMore<T>(a: Run<T>, b: Run<T>, c: Run<T>, t: nat, x: seq<Step<T>>, y: seq<Step<T>>)
    requires Grew(a, b, t, x) && Grew(b, c, t, y)
    ensures Grew(a, c, t, x + y)
  {
    hide Own;
    assert c.steps[|a.steps|..] == b.steps[|a.steps|..] + c.steps[|b.steps|..];
    OwnConcat(b.steps[|a.steps|..], c.steps[|b.steps|..], t);
  }

  lemma {:induction false} NoOwnSteps<T>(steps: seq<Step<T>>, t: nat, k: nat)
    requires Own(steps, t) == [] && k < |steps|
    ensures !ActsAs(steps[k], t)
  {
    hide ActsAs;
    if k < |steps| - 1 { NoOwnSteps(steps[..|steps| - 1], t, k); }
  }

  /** While `t` takes no step, it may rely on what the steps of the others leave it. */
  lemma GrewRely<T>(cfg: Config<T>, before: Run<T>, after: Run<T>, s: State<T>, s': State<T>, t: nat)
    requires Reaches(cfg, before, s) && Reaches(cfg, after, s') && Grew(before, after, t, []) && t < |s.threads|
    ensures Rely(cfg, s, s', t)
  {
    hide Rely, Apply, Enabled, Initial, ActsAs, Own;
    var i, j := |before.steps|, |after.steps|;
    assert after.states[i] == s;
    forall k | i <= k < j
      ensures !ActsAs(after.steps[k], t)
    {
      NoOwnSteps(after.steps[i..], t, k - i);
    }
    OthersStayWithinRely(cfg, after, t, i, j);
  }

  // ---- What a thread's own steps say about the moment it took them ----

  /** A tick is dropped only while another thread is refreshing, and nothing else can become of it
      then; with no refresh in flight it can only begin one. */
  lemma DropMeansBusy<T>(cfg: Config<T>, run: Run<T>, i: nat, t: nat)
    requires run.Valid(cfg) && i < |run.steps| && ActsAs(run.steps[i], t)
    requires t < |run.states[i].threads| && run.states[i].threads[t].LoopTicked?
    ensures run.steps[i] == LoopDrop(t) <==>
            exists u: nat :: u < |run.states[i].threads| && u != t && run.states[i].threads[u].InFlight()
    ensures run.steps[i] == LoopBegin(t) <==>
            forall u :: 0 <= u < |run.states[i].threads| ==> !run.states[i].threads[u].InFlight()
  {
    ReachableInv(cfg, run, i);
    var s := run.states[i];
    if s.shared.refreshing {
      var u: nat :| OnlyInFlight(s, u);
      assert u < |s.threads| && u != t && s.threads[u].InFlight();
    }
  }

  /** A loop stops only after its context was cancelled. */
  lemma StoppedMeansCancelled<T>(cfg: Config<T>, run: Run<T>, i: nat, t: nat)
    requires run.Valid(cfg) && i < |run.steps| && (run.steps[i] == SeeCancel(t) || run.steps[i] == SkipFirst(t))
    ensures exists j: nat :: j < i && run.steps[j] == Cancel(t)
  {
    assert t in run.states[i].cancelled;
    CancelledEarlier(cfg, run, i, t);
  }

  lemma {:induction false} CancelledEarlier<T>(cfg: Config<T>, run: Run<T>, i: nat, t: nat)
    requires run.Valid(cfg) && i < |run.states| && t in run.states[i].cancelled
    ensures exists j: nat :: j < i && run.steps[j] == Cancel(t)
  {
    hide Enabled;
    if run.steps[i - 1] != Cancel(t) {
      CancelsOnly(cfg, run.states[i - 1], run.steps[i - 1], t);
      CancelledEarlier(cfg, run, i - 1, t);
      var j: nat :| j < i - 1 && run.steps[j] == Cancel(t);
    }
  }

  lemma CancelsOnly<T>(cfg: Config<T>, s: State<T>, step: Step<T>, t: nat)
    requires Enabled(cfg, s, step) && t in Apply(cfg, s, step).cancelled && step != Cancel(t)
    ensures t in s.cancelled
  {
  }

  // ---- What a finished refresh shows ----

  /** From the return of the snapshotter to the store, a refresh shows what was reported, with the
      refresh time only in place of an unset attempt, and counts the time that went by. */
  lemma FinishedRefreshShows<T>(cfg: Config<T>, run: Run<T>, t: nat, i: nat, j: nat, now: Time, snapshot: T,
                                started: Time, ended: Time, reported: Status)
    requires run.Valid(cfg) && i < j < |run.steps|
    requires t < |run.states[i].threads| && run.states[i].threads[t].Calling? && run.states[i].threads[t].now == now
    requires run.steps[i] == CallReturns(t, snapshot, started, ended) && run.steps[j] == Finish(t, reported)
    requires forall k :: i < k < j ==> !ActsAs(run.steps[k], t)
    ensures var before, after := run.states[j].shared.view, run.states[j + 1].shared.view;
            && after.snapshot == snapshot
            && after.status.success == reported.success
            && (reported.attempt != ZERO_TIME ==> after.status.attempt == reported.attempt)
            && (reported.attempt == ZERO_TIME ==> after.status.attempt == now)
            && (reported.success ==> after.lastSuccess == after.status.attempt)
            && (!reported.success ==> after.lastSuccess == before.lastSuccess)
            && after.histogram.count == before.histogram.count + 1
            && (started <= ended ==> after.histogram.sum == before.histogram.sum + (ended - started))
            && (ended < started ==> after.histogram.sum == before.histogram.sum)
  {
    var s := run.states[i];
    assert run.states[i + 1] == Apply(cfg, s, run.steps[i]);
    assert run.states[i + 1].threads[t] == Collected(s.threads[t].origin, now, snapshot, Elapsed(started, ended));
    OthersStayWithinRely(cfg, run, t, i + 1, j);
    assert run.states[j].threads[t] == run.states[i + 1].threads[t];
    FinishShows(cfg, run.states[j], t, reported);
  }

  lemma FinishShows<T>(cfg: Config<T>, s: State<T>, t: nat, reported: Status)
    requires Enabled(cfg, s, Finish(t, reported))
    ensures var p := s.threads[t];
            var before, after := s.shared.view, Apply(cfg, s, Finish(t, reported)).shared.view;
            && after.snapshot == p.snapshot
            && after.status.success == reported.success
            && after.status.attempt == (if reported.attempt == 0 then p.now else reported.attempt)
            && after.lastSuccess == (if reported.success then after.status.attempt else before.lastSuccess)
            && after.histogram.count == before.histogram.count + 1
            && after.histogram.sum == before.histogram.sum + p.duration
  {
  }
}
