/** Registering a batch of collectors: all of them, or none. */
module CollectorRegistration {
  import opened Basics

  datatype Event<C> = Registered(c: C) | Unregistered(c: C) | Started(c: C)

  /** Which collectors a registry refuses, given what it holds. */
  type Conflict<!C> = (set<C>, C) -> bool

  predicate Accepts<C(==)>(conflicts: Conflict<C>, held: set<C>, c: C) {
    c !in held && !conflicts(held, c)
  }

  /** The registry's contract: a refused collector changes nothing, and unregistering undoes a
      successful registration. `trace` is the history of what was done to collectors. */
  class Registry<C(==)> {
    const conflicts: Conflict<C>
    var held: set<C>
    ghost var trace: seq<Event<C>>

    constructor (conflicts: Conflict<C>)
      ensures held == {} && trace == [] && this.conflicts == conflicts
    {
      this.conflicts := conflicts;
      held := {};
      trace := [];
    }

    method Register(c: C) returns (ok: bool)
      modifies this
      ensures ok == Accepts(conflicts, old(held), c)
      ensures ok <==> c !in old(held) && !conflicts(old(held), c)
      ensures held == if ok then old(held) + {c} else old(held)
      ensures trace == old(trace) + if ok then [Registered(c)] else []
    {
      ok := Accepts(conflicts, held, c);
      if ok {
        held := held + {c};
        trace := trace + [Registered(c)];
      }
    }

    method Unregister(c: C)
      modifies this
      ensures held == old(held) - {c}
      ensures trace == old(trace) + [Unregistered(c)]
    {
      held := held - {c};
      trace := trace + [Unregistered(c)];
    }

    /** Starting a collector leaves the registry alone. */
    ghost method Start(c: C)
      modifies this`trace
      ensures trace == old(trace) + [Started(c)]
    {
      trace := trace + [Started(c)];
    }
  }

  // ---- What a batch amounts to ----

  /** Nil collectors are skipped. */
  function Present<C>(batch: seq<Option<C>>): seq<C> {
    if batch == [] then []
    else Present(batch[..|batch| - 1]) +
         match batch[|batch| - 1] case None => [] case Some(c) => [c]
  }

  ghost function Members<C>(cs: seq<C>): set<C> {
    set c | c in cs
  }

  /** Each collector is accepted by a registry that already holds the ones before it. */
  ghost predicate Admissible<C>(conflicts: Conflict<C>, held: set<C>, cs: seq<C>) {
    forall i :: 0 <= i < |cs| ==> Accepts(conflicts, held + Members(cs[..i]), cs[i])
  }

  ghost function Registrations<C>(cs: seq<C>): (es: seq<Event<C>>)
    ensures |es| == |cs| && forall i :: 0 <= i < |cs| ==> es[i] == Registered(cs[i])
  {
    seq(|cs|, i requires 0 <= i < |cs| => Registered(cs[i]))
  }

  ghost function Removals<C>(cs: seq<C>): (es: seq<Event<C>>)
    ensures |es| == |cs| && forall i :: 0 <= i < |cs| ==> es[i] == Unregistered(cs[i])
  {
    seq(|cs|, i requires 0 <= i < |cs| => Unregistered(cs[i]))
  }

  ghost function Starts<C>(cs: seq<C>): (es: seq<Event<C>>)
    ensures |es| == |cs| && forall i :: 0 <= i < |cs| ==> es[i] == Started(cs[i])
  {
    seq(|cs|, i requires 0 <= i < |cs| => Started(cs[i]))
  }

  /** `refused` is the first collector of the batch that is not accepted, after `done`. */
  ghost predicate RefusedAfter<C>(conflicts: Conflict<C>, held: set<C>, cs: seq<C>, done: seq<C>, refused: C) {
    && |done| < |cs| && done == cs[..|done|] && refused == cs[|done|]
    && Admissible(conflicts, held, done)
    && !Accepts(conflicts, held + Members(done), refused)
  }

  /** A batch is either admitted as a whole or stopped at one of its collectors. */
  lemma {:induction false} AdmissibleOrRefused<C>(conflicts: Conflict<C>, held: set<C>, cs: seq<C>)
    ensures Admissible(conflicts, held, cs) <==>
            !exists done, refused :: RefusedAfter(conflicts, held, cs, done, refused)
  {
    if !Admissible(conflicts, held, cs) {
      var n := FirstRefusal(conflicts, held, cs);
      assert RefusedAfter(conflicts, held, cs, cs[..n], cs[n]);
    } else {
      forall done, refused
        ensures !RefusedAfter(conflicts, held, cs, done, refused)
      {
      }
    }
  }

  /** That collector, and what came before it, are determined by the batch. */
  lemma RefusalsCoincide<C>(conflicts: Conflict<C>, held: set<C>, cs: seq<C>, d: seq<C>, r: C, d': seq<C>, r': C)
    requires RefusedAfter(conflicts, held, cs, d, r) && RefusedAfter(conflicts, held, cs, d', r')
    ensures d == d' && r == r'
  {
    RefusedNoEarlier(conflicts, held, cs, d, r, d', r');
    RefusedNoEarlier(conflicts, held, cs, d', r', d, r);
  }

  lemma RefusedNoEarlier<C>(conflicts: Conflict<C>, held: set<C>, cs: seq<C>, d: seq<C>, r: C, d': seq<C>, r': C)
    requires RefusedAfter(conflicts, held, cs, d, r) && RefusedAfter(conflicts, held, cs, d', r')
    ensures |d'| <= |d|
  {
    forall i | 0 <= i < |d'|
      ensures Accepts(conflicts, held + Members(cs[..i]), cs[i])
    {
      assert d'[..i] == cs[..i];
    }
  }

  lemma {:induction false} FirstRefusal<C>(conflicts: Conflict<C>, held: set<C>, cs: seq<C>) returns (n: nat)
    requires !Admissible(conflicts, held, cs)
    ensures n < |cs| && RefusedAfter(conflicts, held, cs, cs[..n], cs[n])
  {
    var last := |cs| - 1;
    if Admissible(conflicts, held, cs[..last]) {
      n := last;
      if Accepts(conflicts, held + Members(cs[..last]), cs[last]) {
        forall i | 0 <= i < |cs|
          ensures Accepts(conflicts, held + Members(cs[..i]), cs[i])
        {
          if i < last { assert cs[..last][..i] == cs[..i] && cs[..last][i] == cs[i]; }
        }
      }
    } else {
      n := FirstRefusal(conflicts, held, cs[..last]);
      assert cs[..last][..n] == cs[..n];
    }
  }

  /** An admitted batch holds no collector twice, nor one the registry already held. */
  lemma AdmissibleIsDistinct<C>(conflicts: Conflict<C>, held: set<C>, cs: seq<C>)
    requires Admissible(conflicts, held, cs)
    ensures forall i, j :: 0 <= i < j < |cs| ==> cs[i] != cs[j]
    ensures Members(cs) !! held
  {
    forall i, j | 0 <= i < j < |cs|
      ensures cs[i] != cs[j]
    {
      assert Accepts(conflicts, held + Members(cs[..j]), cs[j]);
      assert cs[..j][i] == cs[i];
    }
  }

  /** What being admitted means: no collector is held already, repeated, or in conflict with those
      held and those before it. */
  lemma AdmissibleMeansAccepted<C>(conflicts: Conflict<C>, held: set<C>, cs: seq<C>)
    ensures Admissible(conflicts, held, cs) <==>
            forall i :: 0 <= i < |cs| ==>
              cs[i] !in held && cs[i] !in cs[..i] && !conflicts(held + (set c | c in cs[..i]), cs[i])
  {
    forall i | 0 <= i < |cs|
      ensures Accepts(conflicts, held + Members(cs[..i]), cs[i]) <==>
              cs[i] !in held && cs[i] !in cs[..i] && !conflicts(held + (set c | c in cs[..i]), cs[i])
    {
      assert Members(cs[..i]) == set c | c in cs[..i];
    }
    hide Accepts, Members;
  }

  /** The places of the batch that are not nil, in order, hold the collectors that are present. */
  lemma {:induction false} PresentAreNotNil<C>(batch: seq<Option<C>>) returns (places: seq<nat>)
    ensures |places| == |Present(batch)|
    ensures forall i :: 0 <= i < |places| ==> places[i] < |batch| && batch[places[i]] == Some(Present(batch)[i])
    ensures forall i, j :: 0 <= i < j < |places| ==> places[i] < places[j]
    ensures forall p: nat :: p < |batch| && batch[p].Some? ==> p in places
  {
    places := [];
    if batch != [] {
      var last := |batch| - 1;
      var before := PresentAreNotNil(batch[..last]);
      places := before + if batch[last].Some? then [last] else [];
      forall p: nat | p < |batch| && batch[p].Some?
        ensures p in places
      {
        if p < last {
          assert batch[..last][p] == batch[p];
          assert p in before;
        }
      }
    }
  }

  // ---- The traces, replayed ----

  ghost function Replay<C>(held: set<C>, trace: seq<Event<C>>): set<C> {
    if trace == [] then held
    else
      var before := Replay(held, trace[..|trace| - 1]);
      match trace[|trace| - 1]
      case Registered(c) => before + {c}
      case Unregistered(c) => before - {c}
      case Started(_) => before
  }

  lemma {:induction false} ReplayConcat<C>(held: set<C>, a: seq<Event<C>>, b: seq<Event<C>>)
    ensures Replay(held, a + b) == Replay(Replay(held, a), b)
  {
    if b == [] {
      assert a + b == a;
    } else {
      assert (a + b)[..|a + b| - 1] == a + b[..|b| - 1];
      ReplayConcat(held, a, b[..|b| - 1]);
    }
  }

  lemma {:induction false} ReplayParts<C>(held: set<C>, cs: seq<C>)
    ensures Replay(held, Registrations(cs)) == held + Members(cs)
    ensures Replay(held, Removals(cs)) == held - Members(cs)
    ensures Replay(held, Starts(cs)) == held
  {
    if cs != [] {
      var last := |cs| - 1;
      ReplayParts(held, cs[..last]);
      assert Registrations(cs)[..last] == Registrations(cs[..last]);
      assert Removals(cs)[..last] == Removals(cs[..last]);
      assert Starts(cs)[..last] == Starts(cs[..last]);
      assert Members(cs) == Members(cs[..last]) + {cs[last]};
    }
  }

  /** Rolling an admitted part of a batch back leaves the registry as it was; carrying the batch
      through adds exactly its collectors. */
  lemma BatchIsAtomic<C>(conflicts: Conflict<C>, held: set<C>, cs: seq<C>)
    requires Admissible(conflicts, held, cs)
    ensures Replay(held, Registrations(cs) + Removals(cs)) == held
    ensures Replay(held, Registrations(cs) + Starts(cs)) == held + Members(cs)
  {
    AdmissibleIsDistinct(conflicts, held, cs);
    ReplayConcat(held, Registrations(cs), Removals(cs));
    ReplayConcat(held, Registrations(cs), Starts(cs));
    ReplayParts(held, cs);
    ReplayParts(held + Members(cs), cs);
  }

  // ---- The two entry points ----

  /** Registering one after the other; on a refusal everything done is undone. */
  method RegisterAll<C(==)>(registry: Registry<C>, batch: seq<Option<C>>)
    returns (refused: Option<C>, registered: seq<C>)
    modifies registry
    ensures refused.None? <==> Admissible(registry.conflicts, old(registry.held), Present(batch))
    ensures refused.None? ==>
              && registered == Present(batch)
              && registry.held == old(registry.held) + Members(Present(batch))
              && registry.trace == old(registry.trace) + Registrations(Present(batch))
    ensures refused.Some? ==>
              && RefusedAfter(registry.conflicts, old(registry.held), Present(batch), registered, refused.value)
              && registry.held == old(registry.held)
              && registry.trace == old(registry.trace) + Registrations(registered) + Removals(registered)
  {
    hide Members, Admissible, RefusedAfter, Registrations, Removals, Present, Accepts;
    registered := [];
    EmptyBatch(registry.conflicts, registry.held);
    for i := 0 to |batch|
      invariant registered == Present(batch[..i])
      invariant Admissible(registry.conflicts, old(registry.held), registered)
      invariant registry.held == old(registry.held) + Members(registered)
      invariant registry.trace == old(registry.trace) + Registrations(registered)
    {
      PresentNext(batch, i);
      if batch[i].None? {
        continue;
      }
      var collector := batch[i].value;
      var ok := registry.Register(collector);
      if !ok {
        PresentPrefix(batch, i + 1);
        RefusedHere(registry.conflicts, old(registry.held), Present(batch), registered, collector);
        RollBack(registry, registered, old(registry.held));
        return Some(collector), registered;
      }
      AdmissibleNext(registry.conflicts, old(registry.held), registered, collector);
      registered := registered + [collector];
    }
    assert batch[..|batch|] == batch;
    refused := None;
  }

  method RollBack<C(==)>(registry: Registry<C>, registered: seq<C>, ghost before: set<C>)
    requires registry.held == before + Members(registered)
    requires Admissible(registry.conflicts, before, registered)
    modifies registry
    ensures registry.held == before
    ensures registry.trace == old(registry.trace) + Removals(registered)
  {
    hide Members, Admissible, Removals;
    assert registered[0..] == registered && registered[..0] == [];
    for i := 0 to |registered|
      invariant registry.held == before + Members(registered[i..])
      invariant registry.trace == old(registry.trace) + Removals(registered[..i])
    {
      UnregisterOne(registry.conflicts, before, registered, i);
      registry.Unregister(registered[i]);
    }
    assert registered[..|registered|] == registered && registered[|registered|..] == [];
    EmptyBatch(registry.conflicts, before);
  }

  lemma EmptyBatch<C>(conflicts: Conflict<C>, held: set<C>)
    ensures Admissible(conflicts, held, []) && Members<C>([]) == {}
    ensures Registrations<C>([]) == [] && Removals<C>([]) == [] && Starts<C>([]) == [] && Present<C>([]) == []
  {
  }

  lemma UnregisterOne<C>(conflicts: Conflict<C>, held: set<C>, cs: seq<C>, i: nat)
    requires Admissible(conflicts, held, cs) && i < |cs|
    ensures held + Members(cs[i..]) - {cs[i]} == held + Members(cs[i + 1..])
    ensures Removals(cs[..i + 1]) == Removals(cs[..i]) + [Unregistered(cs[i])]
  {
    AdmissibleIsDistinct(conflicts, held, cs);
    hide Admissible, Accepts;
    assert cs[i] !in cs[i + 1..];
    assert Members(cs[i..]) == {cs[i]} + Members(cs[i + 1..]);
    assert cs[i] in Members(cs);
    assert Removals(cs[..i + 1]) == Removals(cs[..i]) + [Unregistered(cs[i])];
  }

  lemma StartOne<C>(cs: seq<C>, i: nat)
    requires i < |cs|
    ensures Starts(cs[..i + 1]) == Starts(cs[..i]) + [Started(cs[i])]
  {
  }

  lemma RefusedHere<C>(conflicts: Conflict<C>, held: set<C>, cs: seq<C>, done: seq<C>, refused: C)
    requires Admissible(conflicts, held, done) && !Accepts(conflicts, held + Members(done), refused)
    requires done + [refused] <= cs
    ensures RefusedAfter(conflicts, held, cs, done, refused) && !Admissible(conflicts, held, cs)
  {
    assert (done + [refused])[|done|] == refused;
  }

  lemma PresentNext<C>(batch: seq<Option<C>>, i: nat)
    requires i < |batch|
    ensures Present(batch[..i + 1]) ==
            Present(batch[..i]) + match batch[i] case None => [] case Some(c) => [c]
  {
    assert batch[..i + 1][..i] == batch[..i];
  }

  lemma {:induction false} PresentPrefix<C>(batch: seq<Option<C>>, i: nat)
    requires i <= |batch|
    ensures Present(batch[..i]) <= Present(batch)
    decreases |batch| - i
  {
    if i < |batch| {
      PresentNext(batch, i);
      PresentPrefix(batch, i + 1);
    } else {
      assert batch[..i] == batch;
    }
  }

  lemma AdmissibleNext<C>(conflicts: Conflict<C>, held: set<C>, cs: seq<C>, c: C)
    requires Admissible(conflicts, held, cs) && Accepts(conflicts, held + Members(cs), c)
    ensures Admissible(conflicts, held, cs + [c])
    ensures Members(cs + [c]) == Members(cs) + {c}
    ensures Registrations(cs + [c]) == Registrations(cs) + [Registered(c)]
  {
    forall i | 0 <= i < |cs + [c]|
      ensures Accepts(conflicts, held + Members((cs + [c])[..i]), (cs + [c])[i])
    {
      assert (cs + [c])[..i] == if i < |cs| then cs[..i] else cs;
    }
  }

  method RegisterCollectors<C(==)>(registry: Registry<C>, batch: seq<Option<C>>) returns (refused: Option<C>)
    modifies registry
    ensures refused.None? <==> Admissible(registry.conflicts, old(registry.held), Present(batch))
    ensures refused.None? ==>
              && registry.held == old(registry.held) + Members(Present(batch))
              && registry.trace == old(registry.trace) + Registrations(Present(batch))
    ensures refused.Some? ==>
              && registry.held == old(registry.held)
              && exists done ::
                   && RefusedAfter(registry.conflicts, old(registry.held), Present(batch), done, refused.value)
                   && registry.trace == old(registry.trace) + Registrations(done) + Removals(done)
  {
    hide Members, Admissible, RefusedAfter, Registrations, Removals, Present;
    var registered;
    refused, registered := RegisterAll(registry, batch);
  }

  /** A failing batch starts nothing. A successful one starts every collector once, in order,
      after the last registration. */
  method RegisterAndStartCollectors<C(==)>(registry: Registry<C>, batch: seq<Option<C>>) returns (refused: Option<C>)
    modifies registry
    ensures refused.None? <==> Admissible(registry.conflicts, old(registry.held), Present(batch))
    ensures refused.None? ==>
              && registry.held == old(registry.held) + Members(Present(batch))
              && registry.trace == old(registry.trace) + Registrations(Present(batch)) + Starts(Present(batch))
    ensures refused.Some? ==>
              && registry.held == old(registry.held)
              && exists done ::
                   && RefusedAfter(registry.conflicts, old(registry.held), Present(batch), done, refused.value)
                   && registry.trace == old(registry.trace) + Registrations(done) + Removals(done)
  {
    hide Members, Admissible, RefusedAfter, Registrations, Removals, Starts, Present;
    var registered;
    refused, registered := RegisterAll(registry, batch);
    if refused.Some? {
      return;
    }
    ghost var before := registry.trace;
    EmptyBatch(registry.conflicts, registry.held);
    assert registered[..0] == [];
    for i := 0 to |registered|
      invariant registry.held == old(registry.held) + Members(Present(batch))
      invariant registry.trace == before + Starts(registered[..i])
    {
      registry.Start(registered[i]);
      StartOne(registered, i);
    }
    assert registered[..|registered|] == registered;
  }
}
