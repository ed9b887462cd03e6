/** The cache under concurrency: every interleaving of the locked sections and counter updates
    of any number of calls, with a clock that does not go back. */
module TtlCacheProtocol {
  import opened Basics
  import opened TtlHistory
  import opened TtlCaches

  /** Where a call stands between two of its atomic actions. Lookups and purges carry what they
      saw: `at` writes and `issuedThen` stores had been made when they read the clock. */
  datatype Phase<K, V> =
    | GetCalled(key: K)
    | GetSawExpired(key: K, seen: Item<V>, seenId: nat, at: nat, readAt: Time, issuedThen: nat)
    | GetCounting(key: K, result: Option<V>, at: nat, readAt: Time)
    | GetDone(key: K, result: Option<V>, at: nat, readAt: Time)
    | SetCalled(key: K, value: V, ttl: int)
    | SetCounting
    | SetDone
    | DeleteCalled(key: K)
    | DeleteDone
    | ClearCalled
    | ClearCounting
    | ClearDone
    | LenCalled
    | LenSampled(now: Time, issuedThen: nat)
    | LenCounting(purged: nat, size: nat)
    | LenDone(size: nat)
  {
    predicate Called() { GetCalled? || SetCalled? || DeleteCalled? || ClearCalled? || LenCalled? }

    predicate Settled() { GetDone? || SetDone? || DeleteDone? || ClearDone? || LenDone? }

    predicate HasRead() { GetSawExpired? || GetCounting? || GetDone? }
  }

  datatype Counters = Counters(hits: nat, misses: nat, sets: nat, deletes: nat, expired: nat, clears: nat)

  /** What became of a store: it is the live entry of a key, or how it left the cache. */
  datatype Fate<K> = Live(key: K) | Overwritten | Deleted | Expired | Dropped

  /** `items` and `counters` are the cache's own. `ids` and `fates` number the stores and follow
      each to its end; they and `writes` are history. Some phases note how long it was, but no
      entry, counter or answer depends on it. */
  datatype State<K(==), V> = State(
    items: map<K, Item<V>>, counters: Counters, threads: seq<Phase<K, V>>, clock: Time,
    ids: map<K, nat>, fates: seq<Fate<K>>, writes: seq<Write<K, V>>)

  datatype Step<K, V> =
    | Invoke(call: Phase<K, V>)
    | Advance(now: Time)
    | GetRead(t: nat) | GetEvict(t: nat) | GetCount(t: nat)
    | SetStore(t: nat) | SetCount(t: nat)
    | DeleteKey(t: nat)
    | ClearAll(t: nat) | ClearCount(t: nat)
    | LenSample(t: nat) | LenPurge(t: nat) | LenCount(t: nat)

  ghost predicate Enabled<K, V>(s: State<K, V>, step: Step<K, V>) {
    match step
    case Invoke(call) => call.Called()
    case Advance(now) => s.clock <= now
    case GetRead(t) => t < |s.threads| && s.threads[t].GetCalled?
    case GetEvict(t) => t < |s.threads| && s.threads[t].GetSawExpired?
    case GetCount(t) => t < |s.threads| && s.threads[t].GetCounting?
    case SetStore(t) => t < |s.threads| && s.threads[t].SetCalled?
    case SetCount(t) => t < |s.threads| && s.threads[t].SetCounting?
    case DeleteKey(t) => t < |s.threads| && s.threads[t].DeleteCalled?
    case ClearAll(t) => t < |s.threads| && s.threads[t].ClearCalled?
    case ClearCount(t) => t < |s.threads| && s.threads[t].ClearCounting?
    case LenSample(t) => t < |s.threads| && s.threads[t].LenCalled?
    case LenPurge(t) => t < |s.threads| && s.threads[t].LenSampled?
    case LenCount(t) => t < |s.threads| && s.threads[t].LenCounting?
  }

  /** The stores live under `keys` meet the fate `f`. */
  ghost function Retire<K>(fates: seq<Fate<K>>, keys: set<K>, f: Fate<K>): (r: seq<Fate<K>>)
    ensures |r| == |fates|
    ensures forall i :: 0 <= i < |r| ==> r[i] == if fates[i].Live? && fates[i].key in keys then f else fates[i]
  {
    seq(|fates|, i requires 0 <= i < |fates| => if fates[i].Live? && fates[i].key in keys then f else fates[i])
  }

  /** Removing `keys` from the cache, with the fate `f`. */
  ghost function Without<K, V>(s: State<K, V>, keys: set<K>, f: Fate<K>): State<K, V> {
    s.(items := s.items - keys, ids := s.ids - keys, fates := Retire(s.fates, keys, f))
  }

  ghost function Adding<K, V>(s: State<K, V>, k: K, item: Item<V>): State<K, V> {
    s.(items := s.items[k := item], ids := s.ids[k := |s.fates|], fates := s.fates + [Live(k)])
  }

  ghost function AfterRead<K, V>(s: State<K, V>, k: K): Phase<K, V> {
    if k !in s.items then GetCounting(k, None, |s.writes|, s.clock)
    else if s.clock < s.items[k].expiresAt then GetCounting(k, Some(s.items[k].value), |s.writes|, s.clock)
    else GetSawExpired(k, s.items[k], if k in s.ids then s.ids[k] else 0, |s.writes|, s.clock, |s.fates|)
  }

  /** The keys a step takes out of the cache. */
  ghost function Removed<K, V>(s: State<K, V>, step: Step<K, V>): set<K>
    requires Enabled(s, step)
  {
    match step
    case GetEvict(t) =>
      var p := s.threads[t];
      if p.key in s.items && s.items[p.key].expiresAt == p.seen.expiresAt then {p.key} else {}
    case SetStore(t) => if s.threads[t].ttl > 0 && s.threads[t].key in s.items then {s.threads[t].key} else {}
    case DeleteKey(t) => if s.threads[t].key in s.items then {s.threads[t].key} else {}
    case ClearAll(_) => s.items.Keys
    case LenPurge(t) => Outdated(s.items, s.threads[t].now)
    case _ => {}
  }

  ghost function FateBy<K, V>(step: Step<K, V>): Fate<K> {
    match step
    case SetStore(_) => Overwritten
    case DeleteKey(_) => Deleted
    case ClearAll(_) => Dropped
    case _ => Expired
  }

  /** The entries and the history after a step. */
  ghost function Contents<K, V>(s: State<K, V>, step: Step<K, V>): State<K, V>
    requires Enabled(s, step)
  {
    var left := Without(s, Removed(s, step), FateBy(step));
    match step
    case Advance(now) => s.(clock := now)
    case SetStore(t) =>
      var p := s.threads[t];
      if p.ttl <= 0 then s
      else
        var added := Adding(left, p.key, Item(p.value, s.clock + p.ttl));
        added.(writes := s.writes + [Put(p.key, p.value, p.ttl, s.clock)])
    case DeleteKey(t) => left.(writes := s.writes + [Remove(s.threads[t].key)])
    case ClearAll(_) => left.(writes := s.writes + [Wipe])
    case GetEvict(_) => left
    case LenPurge(_) => left
    case _ => s
  }

  ghost function Moved<K, V>(s: State<K, V>, step: Step<K, V>): Phase<K, V>
    requires Enabled(s, step) && !step.Invoke? && !step.Advance?
  {
    var p := s.threads[step.t];
    match step
    case GetRead(_) => AfterRead(s, p.key)
    case GetEvict(_) => GetCounting(p.key, None, p.at, p.readAt)
    case GetCount(_) => GetDone(p.key, p.result, p.at, p.readAt)
    case SetStore(_) => if p.ttl <= 0 then SetDone else SetCounting
    case SetCount(_) => SetDone
    case DeleteKey(_) => DeleteDone
    case ClearAll(_) => ClearCounting
    case ClearCount(_) => ClearDone
    case LenSample(_) => LenSampled(s.clock, |s.fates|)
    case LenPurge(_) => LenCounting(|Removed(s, step)|, |s.items - Removed(s, step)|)
    case LenCount(_) => LenDone(p.size)
  }

  /** Lookups and stores count after unlocking, deletions and evictions while locked. */
  ghost function Tallied<K, V>(s: State<K, V>, step: Step<K, V>): Counters
    requires Enabled(s, step)
  {
    var c := s.counters;
    match step
    case GetEvict(_) => c.(expired := c.expired + |Removed(s, step)|)
    case GetCount(t) => if s.threads[t].result.Some? then c.(hits := c.hits + 1) else c.(misses := c.misses + 1)
    case SetCount(_) => c.(sets := c.sets + 1)
    case DeleteKey(_) => c.(deletes := c.deletes + |Removed(s, step)|)
    case ClearCount(_) => c.(clears := c.clears + 1)
    case LenCount(t) => c.(expired := c.expired + s.threads[t].purged)
    case _ => c
  }

  ghost function Threads<K, V>(s: State<K, V>, step: Step<K, V>): seq<Phase<K, V>>
    requires Enabled(s, step)
  {
    if step.Invoke? then s.threads + [step.call]
    else if step.Advance? then s.threads
    else s.threads[step.t := Moved(s, step)]
  }

  ghost function Apply<K, V>(s: State<K, V>, step: Step<K, V>): State<K, V>
    requires Enabled(s, step)
  {
    Contents(s, step).(counters := Tallied(s, step), threads := Threads(s, step))
  }

  ghost predicate Initial<K, V>(s: State<K, V>) {
    && s.items == map[] && s.counters == Counters(0, 0, 0, 0, 0, 0) && s.threads == []
    && s.ids == map[] && s.fates == [] && s.writes == []
  }

  datatype Run<K(==), V> = Run(states: seq<State<K, V>>, steps: seq<Step<K, V>>) {
    ghost predicate Valid() {
      && |states| == |steps| + 1
      && Initial(states[0])
      && forall i :: 0 <= i < |steps| ==>
           Enabled(states[i], steps[i]) && states[i + 1] == Apply(states[i], steps[i])
    }
  }

  /** What the locked sections do to the entries is what the cache object's methods do. */
  lemma StepsMatchObject<K, V>(s: State<K, V>, step: Step<K, V>)
    requires Enabled(s, step)
    ensures match step
            case GetEvict(t) => Apply(s, step).items ==
              Rechecked(s.items, s.threads[t].key, s.threads[t].seen.expiresAt)
            case SetStore(t) => Apply(s, step).items ==
              After(s.items, Do(Put(s.threads[t].key, s.threads[t].value, s.threads[t].ttl, s.clock)))
            case DeleteKey(t) => Apply(s, step).items == After(s.items, Do(Remove(s.threads[t].key)))
            case ClearAll(_) => Apply(s, step).items == After(s.items, Do(Wipe))
            case LenPurge(t) => Apply(s, step).items == After(s.items, Call.Len(s.threads[t].now))
            case _ => Apply(s, step).items == s.items
  {
    hide Tallied, Threads, Retire;
    assert s.items - {} == s.items;
    match step {
      case SetStore(t) =>
        var p := s.threads[t];
        assert (s.items - Removed(s, step))[p.key := Item(p.value, s.clock + p.ttl)]
            == s.items[p.key := Item(p.value, s.clock + p.ttl)];
      case ClearAll(_) => assert s.items - s.items.Keys == map[];
      case DeleteKey(t) => assert s.items - Removed(s, step) == s.items - {s.threads[t].key};
      case _ =>
    }
  }

  // ---- Sums over threads ----

  /** What a call still owes a counter, or has contributed to it. */
  datatype Measure = OwedSets | OwedExpiries | DoneHits | DoneMisses | DoneClears

  function Weight<K, V>(m: Measure, p: Phase<K, V>): nat {
    match m
    case OwedSets => if p.SetCounting? then 1 else 0
    case OwedExpiries => if p.LenCounting? then p.purged else 0
    case DoneHits => if p.GetDone? && p.result.Some? then 1 else 0
    case DoneMisses => if p.GetDone? && p.result.None? then 1 else 0
    case DoneClears => if p.ClearDone? then 1 else 0
  }

  function Total<K, V>(m: Measure, threads: seq<Phase<K, V>>): nat {
    if threads == [] then 0 else Total(m, threads[..|threads| - 1]) + Weight(m, threads[|threads| - 1])
  }

  lemma TotalAppend<K, V>(m: Measure, threads: seq<Phase<K, V>>, p: Phase<K, V>)
    ensures Total(m, threads + [p]) == Total(m, threads) + Weight(m, p)
  {
    assert (threads + [p])[..|threads|] == threads;
  }

  lemma {:induction false} TotalUpdate<K, V>(m: Measure, threads: seq<Phase<K, V>>, t: nat, p: Phase<K, V>)
    requires t < |threads|
    ensures Total(m, threads[t := p]) + Weight(m, threads[t]) == Total(m, threads) + Weight(m, p)
  {
    var last := |threads| - 1;
    if t < last {
      TotalUpdate(m, threads[..last], t, p);
      assert threads[t := p][..last] == threads[..last][t := p];
    } else {
      assert threads[t := p][..last] == threads[..last];
    }
  }

  // ---- The bookkeeping of stores ----

  ghost function Count<K>(fates: seq<Fate<K>>, f: Fate<K>): nat {
    if fates == [] then 0
    else Count(fates[..|fates| - 1], f) + if fates[|fates| - 1] == f then 1 else 0
  }

  ghost function CountLive<K>(fates: seq<Fate<K>>, keys: set<K>): nat {
    if fates == [] then 0
    else
      var last := fates[|fates| - 1];
      CountLive(fates[..|fates| - 1], keys) + if last.Live? && last.key in keys then 1 else 0
  }

  lemma {:induction false} RetireCounts<K>(fates: seq<Fate<K>>, keys: set<K>, f: Fate<K>, g: Fate<K>)
    requires !f.Live? && !g.Live?
    ensures Count(Retire(fates, keys, f), g) == Count(fates, g) + if f == g then CountLive(fates, keys) else 0
  {
    if fates != [] {
      var last := |fates| - 1;
      RetireCounts(fates[..last], keys, f, g);
      assert Retire(fates, keys, f)[..last] == Retire(fates[..last], keys, f);
    }
  }

  lemma {:induction false} CountLiveAdds<K>(fates: seq<Fate<K>>, keys: set<K>, k: K, i: int)
    requires k !in keys && i < |fates|
    requires forall j :: 0 <= j < |fates| ==> (fates[j] == Live(k) <==> j == i)
    ensures CountLive(fates, keys + {k}) == CountLive(fates, keys) + if i < 0 then 0 else 1
  {
    if fates != [] {
      var last := |fates| - 1;
      CountLiveAdds(fates[..last], keys, k, if i == last then -1 else i);
    }
  }

  lemma {:induction false} CountLiveNone<K>(fates: seq<Fate<K>>)
    ensures CountLive(fates, {}) == 0
  {
    if fates != [] { CountLiveNone(fates[..|fates| - 1]); }
  }

  /** `ids` and `fates` agree on which store is live under which key. */
  ghost predicate Placed<K, V>(s: State<K, V>) {
    && s.items.Keys == s.ids.Keys
    && (forall k :: k in s.ids ==> s.ids[k] < |s.fates| && s.fates[s.ids[k]] == Live(k))
    && forall i :: 0 <= i < |s.fates| && s.fates[i].Live? ==>
         s.fates[i].key in s.ids && s.ids[s.fates[i].key] == i
  }

  lemma {:induction false} LiveStoresAreKeys<K, V>(s: State<K, V>, keys: set<K>)
    requires Placed(s) && keys <= s.ids.Keys
    ensures CountLive(s.fates, keys) == |keys|
  {
    if keys == {} {
      CountLiveNone(s.fates);
    } else {
      var k :| k in keys;
      LiveStoresAreKeys(s, keys - {k});
      CountLiveAdds(s.fates, keys - {k}, k, s.ids[k]);
      assert keys - {k} + {k} == keys;
    }
  }

  /** Every store has exactly one fate, so the fates add up to the stores. */
  lemma {:induction false} FatesAddUp<K>(fates: seq<Fate<K>>, keys: set<K>)
    requires forall i :: 0 <= i < |fates| && fates[i].Live? ==> fates[i].key in keys
    ensures |fates| == CountLive(fates, keys) + Count(fates, Overwritten) + Count(fates, Deleted)
                       + Count(fates, Expired) + Count(fates, Dropped)
  {
    if fates != [] { FatesAddUp(fates[..|fates| - 1], keys); }
  }

  ghost predicate Counted<K, V>(s: State<K, V>) {
    && s.counters.sets + Total(OwedSets, s.threads) == |s.fates|
    && s.counters.deletes == Count(s.fates, Deleted)
    && s.counters.expired + Total(OwedExpiries, s.threads) == Count(s.fates, Expired)
    && s.counters.hits == Total(DoneHits, s.threads)
    && s.counters.misses == Total(DoneMisses, s.threads)
    && s.counters.clears == Total(DoneClears, s.threads)
  }

  /** What a call between its two looks at the cache can count on. */
  ghost predicate Recorded<K, V>(s: State<K, V>, p: Phase<K, V>) {
    match p
    case GetSawExpired(k, seen, seenId, at, readAt, issuedThen) =>
      && at <= |s.writes| && Lookup(s.writes[..at], k, readAt) == None
      && seen.expiresAt <= readAt <= s.clock
      && seenId < issuedThen <= |s.fates|
      && (k in s.items && s.items[k].expiresAt == seen.expiresAt ==>
            s.items[k] == seen && k in s.ids && s.ids[k] == seenId)
    case GetCounting(k, result, at, readAt) =>
      at <= |s.writes| && readAt <= s.clock && result == Lookup(s.writes[..at], k, readAt)
    case GetDone(k, result, at, readAt) =>
      at <= |s.writes| && readAt <= s.clock && result == Lookup(s.writes[..at], k, readAt)
    case LenSampled(now, issuedThen) =>
      && now <= s.clock && issuedThen <= |s.fates|
      && forall k :: k in s.items && k in s.ids && s.ids[k] >= issuedThen ==> now < s.items[k].expiresAt
    case _ => true
  }

  ghost predicate AllRecorded<K, V>(s: State<K, V>) {
    forall t :: 0 <= t < |s.threads| ==> Recorded(s, s.threads[t])
  }

  ghost predicate Inv<K(!new), V>(s: State<K, V>) {
    Placed(s) && Counted(s) && AllRecorded(s) && Agree(s.items, s.writes, s.clock)
  }

  // ---- Preservation ----

  lemma RemovedAreKeys<K, V>(s: State<K, V>, step: Step<K, V>)
    requires Enabled(s, step)
    ensures Removed(s, step) <= s.items.Keys
    ensures !(FateBy(step).Live?)
  {
  }

  lemma PlacedWithout<K, V>(s: State<K, V>, keys: set<K>, f: Fate<K>)
    requires Placed(s) && !f.Live?
    ensures Placed(Without(s, keys, f))
  {
    var s' := Without(s, keys, f);
    assert s'.items.Keys == s.items.Keys - keys;
    assert s'.ids.Keys == s.ids.Keys - keys;
  }

  lemma PlacedAdding<K, V>(s: State<K, V>, k: K, item: Item<V>)
    requires Placed(s) && k !in s.ids
    ensures Placed(Adding(s, k, item))
  {
  }

  lemma PlacedIsAboutContents<K, V>(s: State<K, V>, s': State<K, V>)
    requires Placed(s) && s'.items == s.items && s'.ids == s.ids && s'.fates == s.fates
    ensures Placed(s')
  {
  }

  lemma StoreMakesRoom<K, V>(s: State<K, V>, step: Step<K, V>)
    requires Placed(s) && Enabled(s, step) && step.SetStore? && s.threads[step.t].ttl > 0
    ensures s.threads[step.t].key !in Without(s, Removed(s, step), Overwritten).ids
  {
    hide Retire;
    KeysOf(s);
  }

  lemma PlacedKept<K, V>(s: State<K, V>, step: Step<K, V>)
    requires Placed(s) && Enabled(s, step)
    ensures Placed(Apply(s, step))
  {
    hide Placed, Without, Adding, Tallied, Threads, Removed;
    RemovedAreKeys(s, step);
    var left := Without(s, Removed(s, step), FateBy(step));
    PlacedWithout(s, Removed(s, step), FateBy(step));
    if step.SetStore? && s.threads[step.t].ttl > 0 {
      var p := s.threads[step.t];
      var item := Item(p.value, s.clock + p.ttl);
      StoreMakesRoom(s, step);
      PlacedAdding(left, p.key, item);
      PlacedIsAboutContents(Adding(left, p.key, item), Apply(s, step));
    } else if step.DeleteKey? || step.ClearAll? || step.GetEvict? || step.LenPurge? {
      PlacedIsAboutContents(left, Apply(s, step));
    } else {
      PlacedIsAboutContents(s, Apply(s, step));
    }
  }

  lemma KeysOf<K, V>(s: State<K, V>)
    requires Placed(s)
    ensures s.items.Keys == s.ids.Keys
  {
  }

  lemma CountAppendLive<K>(fates: seq<Fate<K>>, k: K, g: Fate<K>)
    requires !g.Live?
    ensures Count(fates + [Live(k)], g) == Count(fates, g)
  {
    assert (fates + [Live(k)])[..|fates|] == fates;
  }

  /** A step adds to a fate exactly the entries it removed under it. */
  lemma FatesMove<K, V>(s: State<K, V>, step: Step<K, V>, g: Fate<K>)
    requires Placed(s) && Enabled(s, step) && !g.Live?
    ensures Count(Apply(s, step).fates, g) == Count(s.fates, g) + if g == FateBy(step) then |Removed(s, step)| else 0
    ensures |Apply(s, step).fates| == |s.fates| + if step.SetStore? && s.threads[step.t].ttl > 0 then 1 else 0
  {
    hide Tallied, Threads, Retire, Count, Outdated;
    RemovedAreKeys(s, step);
    RetireCounts(s.fates, Removed(s, step), FateBy(step), g);
    LiveStoresAreKeys(s, Removed(s, step));
    if step.SetStore? {
      CountAppendLive(Retire(s.fates, Removed(s, step), Overwritten), s.threads[step.t].key, g);
    }
  }

  lemma TotalsMove<K, V>(s: State<K, V>, step: Step<K, V>, m: Measure)
    requires Enabled(s, step)
    ensures Total(m, Apply(s, step).threads)
            + (if step.Invoke? || step.Advance? then 0 else Weight(m, s.threads[step.t]))
            == Total(m, s.threads)
               + (if step.Invoke? || step.Advance? then 0 else Weight(m, Moved(s, step)))
  {
    hide Contents, Tallied, Total, Removed;
    if step.Invoke? {
      TotalAppend(m, s.threads, step.call);
    } else if !step.Advance? {
      TotalUpdate(m, s.threads, step.t, Moved(s, step));
    }
  }

  lemma RemovedByOne<K, V>(s: State<K, V>, step: Step<K, V>)
    requires Enabled(s, step)
    ensures !(step.GetEvict? || step.DeleteKey? || step.SetStore? || step.ClearAll? || step.LenPurge?) ==>
              |Removed(s, step)| == 0
  {
  }

  lemma SetsCountedKept<K, V>(s: State<K, V>, step: Step<K, V>)
    requires Placed(s) && Counted(s) && Enabled(s, step)
    ensures Apply(s, step).counters.sets + Total(OwedSets, Apply(s, step).threads) == |Apply(s, step).fates|
  {
    CountedParts(s);
    FatesMove(s, step, Deleted);
    TotalsMove(s, step, OwedSets);
    SetsTallied(s, step);
    hide *;
  }

  lemma CountedParts<K, V>(s: State<K, V>)
    requires Counted(s)
    ensures s.counters.sets + Total(OwedSets, s.threads) == |s.fates|
    ensures s.counters.hits == Total(DoneHits, s.threads)
    ensures s.counters.misses == Total(DoneMisses, s.threads)
    ensures s.counters.clears == Total(DoneClears, s.threads)
  {
  }

  /** An effective store owes its count until it has counted itself. */
  lemma SetsTallied<K, V>(s: State<K, V>, step: Step<K, V>)
    requires Enabled(s, step)
    ensures var moves := !step.Invoke? && !step.Advance?;
            Apply(s, step).counters.sets + (if moves then Weight(OwedSets, Moved(s, step)) else 0)
            == s.counters.sets + (if moves then Weight(OwedSets, s.threads[step.t]) else 0)
               + if step.SetStore? && s.threads[step.t].ttl > 0 then 1 else 0
  {
    hide Contents, Threads, Removed, AfterRead;
    if step.GetRead? { ReadIsNotDone(s, s.threads[step.t].key); }
  }

  lemma DeletesCountedKept<K, V>(s: State<K, V>, step: Step<K, V>)
    requires Placed(s) && Counted(s) && Enabled(s, step)
    ensures Apply(s, step).counters.deletes == Count(Apply(s, step).fates, Deleted)
  {
    FatesMove(s, step, Deleted);
    hide Placed, Contents, Threads, Removed, Total, Count;
  }

  /** A purge owes what it removed until it has counted it; an evicting lookup counts at once. */
  lemma ExpiriesOwed<K, V>(s: State<K, V>, step: Step<K, V>)
    requires Enabled(s, step) && !step.Invoke? && !step.Advance?
    ensures Weight(OwedExpiries, s.threads[step.t]) == if step.LenCount? then s.threads[step.t].purged else 0
    ensures Weight(OwedExpiries, Moved(s, step)) == if step.LenPurge? then |Removed(s, step)| else 0
  {
    hide Removed;
  }

  lemma ExpiriesCountedKept<K, V>(s: State<K, V>, step: Step<K, V>)
    requires Placed(s) && Counted(s) && Enabled(s, step)
    ensures Apply(s, step).counters.expired + Total(OwedExpiries, Apply(s, step).threads)
            == Count(Apply(s, step).fates, Expired)
  {
    FatesMove(s, step, Expired);
    TotalsMove(s, step, OwedExpiries);
    RemovedByOne(s, step);
    if !step.Invoke? && !step.Advance? { ExpiriesOwed(s, step); }
    hide Placed, Contents, Threads, Removed, Total, Count, Moved, Weight;
  }

  lemma CallsCountedKept<K, V>(s: State<K, V>, step: Step<K, V>)
    requires Counted(s) && Enabled(s, step)
    ensures var s' := Apply(s, step);
            && s'.counters.hits == Total(DoneHits, s'.threads)
            && s'.counters.misses == Total(DoneMisses, s'.threads)
            && s'.counters.clears == Total(DoneClears, s'.threads)
  {
    CountedParts(s);
    TotalsMove(s, step, DoneHits);
    TotalsMove(s, step, DoneMisses);
    TotalsMove(s, step, DoneClears);
    CallsTallied(s, step);
    hide *;
  }

  /** A finishing lookup or clear counts itself once, and nothing else touches their counters. */
  lemma CallsTallied<K, V>(s: State<K, V>, step: Step<K, V>)
    requires Enabled(s, step)
    ensures var c, c' := s.counters, Apply(s, step).counters;
            var moves := !step.Invoke? && !step.Advance?;
            && c'.hits + (if moves then Weight(DoneHits, s.threads[step.t]) else 0)
               == c.hits + (if moves then Weight(DoneHits, Moved(s, step)) else 0)
            && c'.misses + (if moves then Weight(DoneMisses, s.threads[step.t]) else 0)
               == c.misses + (if moves then Weight(DoneMisses, Moved(s, step)) else 0)
            && c'.clears + (if moves then Weight(DoneClears, s.threads[step.t]) else 0)
               == c.clears + (if moves then Weight(DoneClears, Moved(s, step)) else 0)
  {
    hide Contents, Threads, Removed, AfterRead;
    if step.GetRead? { ReadIsNotDone(s, s.threads[step.t].key); }
  }

  lemma ReadIsNotDone<K, V>(s: State<K, V>, k: K)
    ensures AfterRead(s, k).GetCounting? || AfterRead(s, k).GetSawExpired?
  {
  }

  lemma CountedKept<K, V>(s: State<K, V>, step: Step<K, V>)
    requires Placed(s) && Counted(s) && Enabled(s, step)
    ensures Counted(Apply(s, step))
  {
    SetsCountedKept(s, step);
    DeletesCountedKept(s, step);
    ExpiriesCountedKept(s, step);
    CallsCountedKept(s, step);
    hide Apply, Placed, Total, Count;
  }

  /** What any step may do under the feet of another call: the history grows, and an entry is
      either one that was there or a newer one with a later expiry than the clock. */
  ghost predicate Evolves<K, V>(s: State<K, V>, s': State<K, V>) {
    && s.writes <= s'.writes && s.clock <= s'.clock && |s.fates| <= |s'.fates|
    && forall k :: k in s'.items && k in s'.ids ==> Inherited(s, s', k)
  }

  ghost predicate Inherited<K, V>(s: State<K, V>, s': State<K, V>, k: K)
    requires k in s'.items && k in s'.ids
  {
    || (k in s.items && k in s.ids && s'.items[k] == s.items[k] && s'.ids[k] == s.ids[k])
    || (s'.ids[k] >= |s.fates| && s.clock < s'.items[k].expiresAt)
  }

  lemma StepEvolves<K, V>(s: State<K, V>, step: Step<K, V>)
    requires Enabled(s, step)
    ensures Evolves(s, Apply(s, step))
  {
    hide Tallied, Threads, Removed;
  }

  lemma RecordKept<K, V>(s: State<K, V>, s': State<K, V>, p: Phase<K, V>)
    requires Evolves(s, s') && Recorded(s, p) && Placed(s')
    ensures Recorded(s', p)
  {
    hide Lookup;
    KeysOf(s');
    if p.HasRead() {
      assert s'.writes[..p.at] == s.writes[..p.at];
    }
    if p.GetSawExpired? && p.key in s'.items {
      assert Inherited(s, s', p.key);
    }
    if p.LenSampled? {
      forall k | k in s'.items && k in s'.ids && s'.ids[k] >= p.issuedThen
        ensures p.now < s'.items[k].expiresAt
      {
        assert Inherited(s, s', k);
      }
    }
  }

  lemma ReadIsRecorded<K(!new), V>(s: State<K, V>, k: K)
    requires Placed(s) && Agree(s.items, s.writes, s.clock)
    ensures Recorded(s, AfterRead(s, k))
  {
    assert s.writes[..|s.writes|] == s.writes;
    AgreeAnswers(s.items, s.writes, s.clock, k);
    hide Agree, Lookup;
    KeysOf(s);
  }

  lemma MovedIsRecorded<K(!new), V>(s: State<K, V>, step: Step<K, V>)
    requires Placed(s) && Agree(s.items, s.writes, s.clock)
    requires Enabled(s, step) && !step.Invoke? && !step.Advance? && Recorded(s, s.threads[step.t])
    ensures Recorded(s, Moved(s, step))
  {
    if step.GetRead? {
      hide Agree, Lookup, AfterRead, Removed, Recorded, Placed;
      ReadIsRecorded(s, s.threads[step.t].key);
    } else {
      hide Agree, Lookup, AfterRead, Removed;
    }
  }

  lemma AllRecordedKept<K(!new), V>(s: State<K, V>, step: Step<K, V>)
    requires Inv(s) && Enabled(s, step)
    ensures AllRecorded(Apply(s, step))
  {
    var s' := Apply(s, step);
    StepEvolves(s, step);
    PlacedKept(s, step);
    if !step.Invoke? && !step.Advance? {
      MovedIsRecorded(s, step);
      RecordKept(s, s', Moved(s, step));
    }
    forall u | 0 <= u < |s.threads|
      ensures Recorded(s', s.threads[u])
    {
      RecordKept(s, s', s.threads[u]);
    }
    hide Placed, Counted, Agree, Contents, Tallied, Moved, Evolves, Lookup;
  }

  /** Only expired entries are evicted, by a lookup or by a purge. */
  lemma EvictedAreExpired<K, V>(s: State<K, V>, step: Step<K, V>, k: K)
    requires Enabled(s, step) && (step.GetEvict? || step.LenPurge?) && Recorded(s, s.threads[step.t])
    requires k in Removed(s, step) && k in s.items
    ensures s.items[k].expiresAt <= s.clock
  {
    hide Lookup;
  }

  lemma AgreementKept<K(!new), V>(s: State<K, V>, step: Step<K, V>)
    requires AllRecorded(s) && Agree(s.items, s.writes, s.clock) && Enabled(s, step)
    ensures Agree(Apply(s, step).items, Apply(s, step).writes, Apply(s, step).clock)
  {
    hide Agree, Lookup, Threads, Tallied, Retire, Recorded;
    StepsMatchObject(s, step);
    match step {
      case Advance(now) => AgreeLater(s.items, s.writes, s.clock, now);
      case SetStore(t) =>
        var p := s.threads[t];
        WriteKeepsAgreement(s.items, s.writes, s.clock, Put(p.key, p.value, p.ttl, s.clock));
      case DeleteKey(t) => WriteKeepsAgreement(s.items, s.writes, s.clock, Remove(s.threads[t].key));
      case ClearAll(_) => WriteKeepsAgreement(s.items, s.writes, s.clock, Wipe);
      case GetEvict(t) => EvictionAgrees(s, step);
      case LenPurge(t) => EvictionAgrees(s, step);
      case _ =>
    }
  }

  lemma EvictionAgrees<K(!new), V>(s: State<K, V>, step: Step<K, V>)
    requires Agree(s.items, s.writes, s.clock)
    requires Enabled(s, step) && (step.GetEvict? || step.LenPurge?) && Recorded(s, s.threads[step.t])
    ensures Agree(Apply(s, step).items, Apply(s, step).writes, Apply(s, step).clock)
  {
    hide Agree, Lookup, Threads, Tallied, Retire, Recorded, Removed;
    forall k | k in Removed(s, step) && k in s.items
      ensures s.items[k].expiresAt <= s.clock
    {
      EvictedAreExpired(s, step, k);
    }
    EvictionKeepsAgreement(s.items, s.writes, s.clock, Removed(s, step));
  }

  /** Every step keeps the invariant. */
  lemma InvKept<K(!new), V>(s: State<K, V>, step: Step<K, V>)
    requires Inv(s) && Enabled(s, step)
    ensures Inv(Apply(s, step))
  {
    AgreementKept(s, step);
    AllRecordedKept(s, step);
    hide Apply, Placed, Counted, AllRecorded, Agree;
    PlacedKept(s, step);
    CountedKept(s, step);
  }

  lemma InitialInv<K(!new), V>(s: State<K, V>)
    requires Initial(s)
    ensures Inv(s)
  {
    assert forall k :: AgreeOn(s.items, s.writes, s.clock, k);
  }

  /** Every reachable state of every interleaving satisfies the invariant. */
  lemma {:induction false} ReachableInv<K(!new), V>(run: Run<K, V>, i: nat)
    requires run.Valid() && i < |run.states|
    ensures Inv(run.states[i])
  {
    hide Apply, Enabled, Inv;
    if i == 0 {
      InitialInv(run.states[0]);
    } else {
      ReachableInv(run, i - 1);
      InvKept(run.states[i - 1], run.steps[i - 1]);
    }
  }

  // ---- What follows ----

  lemma RemovalBy<K, V>(s: State<K, V>, step: Step<K, V>, k: K)
    requires Placed(s) && Enabled(s, step) && (step.GetEvict? || step.LenPurge?)
    requires Recorded(s, s.threads[step.t]) && k in Removed(s, step)
    ensures k in s.items && k in s.ids
    ensures var p := s.threads[step.t];
            && s.items[k].expiresAt <= s.clock
            && s.ids[k] < p.issuedThen
            && (p.GetSawExpired? ==> k == p.key && s.items[k] == p.seen && s.ids[k] == p.seenId)
  {
    hide Lookup;
    KeysOf(s);
  }

  /** No interleaving lets a lookup or a purge remove an entry that is still live, or one stored
      after the removing call took its reading; a lookup removes only the store it saw. */
  lemma RemovalIsSafe<K(!new), V>(run: Run<K, V>, i: nat, k: K)
    requires run.Valid() && i < |run.steps| && (run.steps[i].GetEvict? || run.steps[i].LenPurge?)
    requires k in run.states[i].items && k !in run.states[i + 1].items
    ensures var s := run.states[i]; var p := s.threads[run.steps[i].t];
            && k in s.ids
            && s.items[k].expiresAt <= s.clock
            && s.ids[k] < p.issuedThen
            && (p.GetSawExpired? ==> k == p.key && s.items[k] == p.seen && s.ids[k] == p.seenId)
  {
    ReachableInv(run, i);
    var s, step := run.states[i], run.steps[i];
    assert Recorded(s, s.threads[step.t]);
    hide Placed, Counted, Agree, Recorded, AllRecorded, Tallied, Threads, Retire, Removed;
    RemovalBy(s, step, k);
  }

  /** Every store is accounted for, counted or about to be: live, overwritten, deleted, expired
      or cleared away. */
  lemma EntriesAreConserved<K(!new), V>(run: Run<K, V>, i: nat)
    requires run.Valid() && i < |run.states|
    ensures var s := run.states[i];
            s.counters.sets + Total(OwedSets, s.threads) ==
            |s.items| + Count(s.fates, Overwritten) + s.counters.deletes
            + s.counters.expired + Total(OwedExpiries, s.threads) + Count(s.fates, Dropped)
  {
    ReachableInv(run, i);
    var s := run.states[i];
    LiveStoresAreKeys(s, s.ids.Keys);
    FatesAddUp(s.fates, s.ids.Keys);
    assert |s.items| == |s.items.Keys|;
  }

  /** A store that has left the cache never changes fate again, so none is counted twice. */
  lemma FateIsFinal<K, V>(s: State<K, V>, step: Step<K, V>, id: nat)
    requires Enabled(s, step) && id < |s.fates| && !s.fates[id].Live?
    ensures id < |Apply(s, step).fates| && Apply(s, step).fates[id] == s.fates[id]
  {
    hide Tallied, Threads, Removed;
  }

  ghost function Weighing<K, V>(m: Measure, threads: seq<Phase<K, V>>): set<int> {
    set t | 0 <= t < |threads| && Weight(m, threads[t]) == 1
  }

  lemma WeighingSnoc<K, V>(m: Measure, threads: seq<Phase<K, V>>, p: Phase<K, V>)
    ensures |Weighing(m, threads + [p])| == |Weighing(m, threads)| + if Weight(m, p) == 1 then 1 else 0
  {
    hide Weight;
    var longer := threads + [p];
    assert longer[|threads|] == p && forall t :: 0 <= t < |threads| ==> longer[t] == threads[t];
    assert Weighing(m, longer) == Weighing(m, threads) + if Weight(m, p) == 1 then {|threads|} else {};
  }

  lemma WeighsAtMostOne<K, V>(m: Measure, p: Phase<K, V>)
    requires m != OwedExpiries
    ensures Weight(m, p) <= 1
  {
  }

  lemma NothingWeighs<K, V>(m: Measure)
    ensures Total<K, V>(m, []) == 0 && Weighing<K, V>(m, []) == {}
  {
  }

  lemma {:induction false} TotalCountsThreads<K, V>(m: Measure, threads: seq<Phase<K, V>>)
    requires m != OwedExpiries
    ensures Total(m, threads) == |Weighing(m, threads)|
  {
    hide *;
    if threads == [] {
      NothingWeighs<K, V>(m);
    } else {
      var last := |threads| - 1;
      assert threads == threads[..last] + [threads[last]];
      TotalCountsThreads(m, threads[..last]);
      TotalAppend(m, threads[..last], threads[last]);
      WeighingSnoc(m, threads[..last], threads[last]);
      WeighsAtMostOne(m, threads[last]);
    }
  }

  lemma HitsAndMisses<K, V>(threads: seq<Phase<K, V>>)
    ensures Total(DoneHits, threads) == |set t | 0 <= t < |threads| && threads[t].GetDone? && threads[t].result.Some?|
    ensures Total(DoneMisses, threads) == |set t | 0 <= t < |threads| && threads[t].GetDone? && threads[t].result.None?|
  {
    TotalCountsThreads(DoneHits, threads);
    TotalCountsThreads(DoneMisses, threads);
    hide Total;
    assert (set t | 0 <= t < |threads| && threads[t].GetDone? && threads[t].result.Some?)
        == Weighing(DoneHits, threads);
    assert (set t | 0 <= t < |threads| && threads[t].GetDone? && threads[t].result.None?)
        == Weighing(DoneMisses, threads);
  }

  lemma ClearsDone<K, V>(threads: seq<Phase<K, V>>)
    ensures Total(DoneClears, threads) == |set t | 0 <= t < |threads| && threads[t].ClearDone?|
  {
    TotalCountsThreads(DoneClears, threads);
    hide Total;
    assert (set t | 0 <= t < |threads| && threads[t].ClearDone?)
        == Weighing(DoneClears, threads);
  }

  /** At every moment the hits are the finished lookups that found a value, and the misses those
      that found none; the clears are the finished ones. */
  lemma LookupsAreCountedOnce<K(!new), V>(run: Run<K, V>, i: nat)
    requires run.Valid() && i < |run.states|
    ensures var s := run.states[i];
            && s.counters.hits == |set t | 0 <= t < |s.threads| && s.threads[t].GetDone? && s.threads[t].result.Some?|
            && s.counters.misses == |set t | 0 <= t < |s.threads| && s.threads[t].GetDone? && s.threads[t].result.None?|
            && s.counters.clears == |set t | 0 <= t < |s.threads| && s.threads[t].ClearDone?|
  {
    ReachableInv(run, i);
    CountedParts(run.states[i]);
    hide *;
    HitsAndMisses(run.states[i].threads);
    ClearsDone(run.states[i].threads);
  }

  /** So together they are the finished lookups. */
  lemma LookupsAreHitsOrMisses<K(!new), V>(run: Run<K, V>, i: nat)
    requires run.Valid() && i < |run.states|
    ensures var s := run.states[i];
            s.counters.hits + s.counters.misses == |set t | 0 <= t < |s.threads| && s.threads[t].GetDone?|
  {
    LookupsAreCountedOnce(run, i);
    var threads := run.states[i].threads;
    hide *;
    var hits := set t | 0 <= t < |threads| && threads[t].GetDone? && threads[t].result.Some?;
    var misses := set t | 0 <= t < |threads| && threads[t].GetDone? && threads[t].result.None?;
    assert (set t | 0 <= t < |threads| && threads[t].GetDone?) == hits + misses;
  }

  lemma {:induction false} SettledOweNothing<K, V>(threads: seq<Phase<K, V>>)
    requires forall t :: 0 <= t < |threads| ==> threads[t].Settled()
    ensures Total(OwedSets, threads) == 0 && Total(OwedExpiries, threads) == 0
  {
    if threads != [] { SettledOweNothing(threads[..|threads| - 1]); }
  }

  /** Once no call is in progress nothing is owed: the counters balance with the live entries and
      the numbers of overwritten and dropped stores. */
  lemma CountersBalanceAtRest<K(!new), V>(run: Run<K, V>, i: nat)
    requires run.Valid() && i < |run.states|
    requires forall t :: 0 <= t < |run.states[i].threads| ==> run.states[i].threads[t].Settled()
    ensures var s := run.states[i];
            s.counters.sets == |s.items| + Count(s.fates, Overwritten) + s.counters.deletes
                               + s.counters.expired + Count(s.fates, Dropped)
  {
    EntriesAreConserved(run, i);
    SettledOweNothing(run.states[i].threads);
  }

  /** Call `t` read the cache at step `j` of the run. */
  ghost predicate ReadAt<K, V>(run: Run<K, V>, t: nat, j: nat, k: K, at: nat, readAt: Time) {
    && j < |run.steps| && j < |run.states| && run.steps[j] == GetRead(t)
    && t < |run.states[j].threads| && run.states[j].threads[t] == GetCalled(k)
    && |run.states[j].writes| == at && run.states[j].clock == readAt
  }

  /** A phase that has read either was just entered by the read or carries what it had. */
  lemma ReadCarriedOver<K, V>(s: State<K, V>, step: Step<K, V>, t: nat)
    requires Enabled(s, step) && t < |Apply(s, step).threads| && Apply(s, step).threads[t].HasRead()
    ensures t < |s.threads|
    ensures var p, p' := s.threads[t], Apply(s, step).threads[t];
            if step == GetRead(t) then p == GetCalled(p'.key) && p'.at == |s.writes| && p'.readAt == s.clock
            else p.HasRead() && p.key == p'.key && p.at == p'.at && p.readAt == p'.readAt
  {
    hide Contents, Tallied, Removed;
  }

  lemma {:induction false} ReadHappened<K(!new), V>(run: Run<K, V>, t: nat, i: nat)
    requires run.Valid() && i < |run.states| && t < |run.states[i].threads| && run.states[i].threads[t].HasRead()
    ensures var p := run.states[i].threads[t];
            exists j: nat :: j < i && ReadAt(run, t, j, p.key, p.at, p.readAt) &&
                             run.states[j].writes <= run.states[i].writes
  {
    hide Apply, Enabled;
    var s, step := run.states[i - 1], run.steps[i - 1];
    var p := run.states[i].threads[t];
    StepEvolves(s, step);
    ReadCarriedOver(s, step, t);
    if step == GetRead(t) {
      assert ReadAt(run, t, i - 1, p.key, p.at, p.readAt);
    } else {
      ReadHappened(run, t, i - 1);
      var j: nat :| j < i - 1 && ReadAt(run, t, j, p.key, p.at, p.readAt) && run.states[j].writes <= s.writes;
    }
  }

  /** Every finished lookup answered what the write history dictated at one instant inside the
      call, at that instant's clock. */
  lemma LookupsAreLinearizable<K(!new), V>(run: Run<K, V>, t: nat, i: nat)
    requires run.Valid() && i < |run.states| && t < |run.states[i].threads| && run.states[i].threads[t].GetDone?
    ensures var p := run.states[i].threads[t];
            exists j: nat :: j < i && ReadAt(run, t, j, p.key, p.at, p.readAt) &&
                             p.result == Lookup(run.states[j].writes, p.key, run.states[j].clock)
  {
    ReachableInv(run, i);
    ReadHappened(run, t, i);
    var p := run.states[i].threads[t];
    assert Recorded(run.states[i], p);
    hide Lookup, Placed, Counted, Agree, AllRecorded;
    var j: nat :| j < i && ReadAt(run, t, j, p.key, p.at, p.readAt) && run.states[j].writes <= run.states[i].writes;
    assert run.states[i].writes[..p.at] == run.states[j].writes;
  }

  /** A finished lookup found a value, and counts as a hit, exactly if the history held a live
      entry of its key at an instant inside the call; the value is that entry's. */
  lemma HitsHeldLiveEntries<K(!new), V>(run: Run<K, V>, t: nat, i: nat)
    requires run.Valid() && i < |run.states| && t < |run.states[i].threads| && run.states[i].threads[t].GetDone?
    ensures var p := run.states[i].threads[t];
            exists j: nat :: j < i && ReadAt(run, t, j, p.key, p.at, p.readAt) &&
              (p.result.Some? <==>
                 exists w: nat :: LastStore(run.states[j].writes, p.key, w)
                   && p.readAt < run.states[j].writes[w].now + run.states[j].writes[w].ttl
                   && p.result == Some(run.states[j].writes[w].value))
  {
    LookupsAreLinearizable(run, t, i);
    var p := run.states[i].threads[t];
    hide Apply, Enabled;
    var j: nat :| j < i && ReadAt(run, t, j, p.key, p.at, p.readAt) &&
      p.result == Lookup(run.states[j].writes, p.key, run.states[j].clock);
    LookupIsLastStore(run.states[j].writes, p.key, p.readAt);
  }

  lemma LookupIsLastStore<K, V>(ws: seq<Write<K, V>>, k: K, t: Time)
    ensures Lookup(ws, k, t).Some? <==>
            exists w: nat :: LastStore(ws, k, w) && t < ws[w].now + ws[w].ttl && Lookup(ws, k, t) == Some(ws[w].value)
  {
    hide LastStore;
    if Current(ws, k).Some? {
      CurrentIsLastStore(ws, k, Current(ws, k).value);
    }
  }

  // ---- What a size query answers ----

  ghost function PutKeys<K, V>(ws: seq<Write<K, V>>): set<K> {
    set i | 0 <= i < |ws| && ws[i].Put? :: ws[i].key
  }

  /** The keys that the history holds live at `t`. */
  ghost function LiveKeys<K, V>(ws: seq<Write<K, V>>, t: Time): set<K> {
    set k | k in PutKeys(ws) && Lookup(ws, k, t).Some?
  }

  lemma LiveKeysAreLookups<K, V>(ws: seq<Write<K, V>>, t: Time, k: K)
    ensures k in LiveKeys(ws, t) <==> Lookup(ws, k, t).Some?
  {
    if Current(ws, k).Some? {
      CurrentIsLastStore(ws, k, Current(ws, k).value);
      var i: nat :| LastStore(ws, k, i);
      assert ws[i].key == k;
    }
  }

  /** What a purge leaves: no key that was dead when its time was sampled, and every key that is
      live when it holds the lock. */
  lemma PurgeLeaves<K(!new), V>(s: State<K, V>, t: nat)
    requires Inv(s) && Enabled(s, LenPurge(t)) && s.threads[t].LenSampled?
    ensures var left := s.items - Removed(s, LenPurge(t));
            LiveKeys(s.writes, s.clock) <= left.Keys <= LiveKeys(s.writes, s.threads[t].now)
    ensures s.threads[t].now <= s.clock
  {
    assert Recorded(s, s.threads[t]);
    var left := s.items - Removed(s, LenPurge(t));
    forall k
      ensures k in LiveKeys(s.writes, s.clock) ==> k in left
      ensures k in left ==> k in LiveKeys(s.writes, s.threads[t].now)
    {
      assert AgreeOn(s.items, s.writes, s.clock, k);
      LiveKeysAreLookups(s.writes, s.clock, k);
      LiveKeysAreLookups(s.writes, s.threads[t].now, k);
    }
  }

  /** Call `t` sampled `now` at step `a` and purged at step `b`, leaving `size` entries. */
  ghost predicate SizedAt<K, V>(run: Run<K, V>, t: nat, a: nat, b: nat, now: Time, size: nat) {
    && a < b < |run.steps| && b < |run.states|
    && run.steps[a] == LenSample(t) && run.states[a].clock == now
    && run.steps[b] == LenPurge(t) && t < |run.states[b].threads|
    && run.states[b].threads[t].LenSampled? && run.states[b].threads[t].now == now
    && size == |run.states[b].items - Removed(run.states[b], LenPurge(t))|
  }

  ghost predicate SampledAt<K, V>(run: Run<K, V>, t: nat, a: nat, now: Time) {
    a < |run.steps| && a < |run.states| && run.steps[a] == LenSample(t) && run.states[a].clock == now
  }

  /** How a size query came to where it stands. */
  lemma LenCarriedOver<K, V>(s: State<K, V>, step: Step<K, V>, t: nat)
    requires Enabled(s, step) && t < |Apply(s, step).threads|
    ensures var p' := Apply(s, step).threads[t];
            && (p'.LenSampled? || p'.LenCounting? || p'.LenDone? ==> t < |s.threads|)
            && (p'.LenSampled? ==> if step == LenSample(t) then p'.now == s.clock else p' == s.threads[t])
            && (p'.LenCounting? ==>
                  if step == LenPurge(t) then s.threads[t].LenSampled? && p'.size == |s.items - Removed(s, step)|
                  else p' == s.threads[t])
            && (p'.LenDone? ==>
                  if step == LenCount(t) then s.threads[t].LenCounting? && p'.size == s.threads[t].size
                  else p' == s.threads[t])
  {
    hide Contents, Tallied, Removed;
  }

  lemma {:induction false} SampleHappened<K(!new), V>(run: Run<K, V>, t: nat, i: nat)
    requires run.Valid() && i < |run.states| && t < |run.states[i].threads| && run.states[i].threads[t].LenSampled?
    ensures exists a: nat :: a < i && SampledAt(run, t, a, run.states[i].threads[t].now)
  {
    hide Apply, Enabled;
    LenCarriedOver(run.states[i - 1], run.steps[i - 1], t);
    if run.steps[i - 1] == LenSample(t) {
      assert SampledAt(run, t, i - 1, run.states[i].threads[t].now);
    } else {
      SampleHappened(run, t, i - 1);
      var a: nat :| a < i - 1 && SampledAt(run, t, a, run.states[i].threads[t].now);
    }
  }

  ghost predicate SizedBefore<K, V>(run: Run<K, V>, t: nat, i: nat, size: nat) {
    exists a: nat, b: nat, now :: b < i && SizedAt(run, t, a, b, now, size)
  }

  lemma SizedLater<K, V>(run: Run<K, V>, t: nat, i: nat, size: nat)
    requires i > 0 && SizedBefore(run, t, i - 1, size)
    ensures SizedBefore(run, t, i, size)
  {
    hide SizedAt;
    var a: nat, b: nat, now :| b < i - 1 && SizedAt(run, t, a, b, now, size);
    assert b < i;
  }

  lemma {:induction false} PurgeHappened<K(!new), V>(run: Run<K, V>, t: nat, i: nat)
    requires run.Valid() && i < |run.states| && t < |run.states[i].threads|
    requires run.states[i].threads[t].LenCounting? || run.states[i].threads[t].LenDone?
    ensures SizedBefore(run, t, i, run.states[i].threads[t].size)
  {
    hide Apply, Enabled, Removed;
    var s, size := run.states[i - 1], run.states[i].threads[t].size;
    LenCarriedOver(s, run.steps[i - 1], t);
    if run.steps[i - 1] == LenPurge(t) && s.threads[t].LenSampled? {
      SampleHappened(run, t, i - 1);
      var a: nat :| a < i - 1 && SampledAt(run, t, a, s.threads[t].now);
      assert SizedAt(run, t, a, i - 1, s.threads[t].now, size);
    } else {
      hide SizedBefore;
      PurgeHappened(run, t, i - 1);
      SizedLater(run, t, i, size);
    }
  }

  /** In every interleaving a size query answers with no fewer keys than the history holds live
      when it purges, and no more than it then holds live as of the time sampled before the lock;
      so with exactly those keys when the clock stood still in between. */
  lemma SizesAreBracketed<K(!new), V>(run: Run<K, V>, t: nat, i: nat)
    requires run.Valid() && i < |run.states| && t < |run.states[i].threads| && run.states[i].threads[t].LenDone?
    ensures exists a: nat, b: nat, now ::
              && b < i && SizedAt(run, t, a, b, now, run.states[i].threads[t].size)
              && var s := run.states[b];
                 && now <= s.clock
                 && |LiveKeys(s.writes, s.clock)| <= run.states[i].threads[t].size <= |LiveKeys(s.writes, now)|
  {
    hide Apply, Removed, LiveKeys, Inv;
    PurgeHappened(run, t, i);
    var a: nat, b: nat, now :| b < i && SizedAt(run, t, a, b, now, run.states[i].threads[t].size);
    ReachableInv(run, b);
    var s := run.states[b];
    assert Enabled(s, LenPurge(t));
    PurgeLeaves(s, t);
    var left := s.items - Removed(s, LenPurge(t));
    SubsetIsNoLarger(LiveKeys(s.writes, s.clock), left.Keys);
    SubsetIsNoLarger(left.Keys, LiveKeys(s.writes, now));
    assert |left.Keys| == |left|;
  }
}
