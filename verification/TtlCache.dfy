/** What a cache with expiring entries should answer, told by its history of writes alone. */
module TtlHistory {
  import opened Basics

  datatype Item<V> = Item(value: V, expiresAt: Time)

  datatype Write<K(==), V> =
    | Put(key: K, value: V, ttl: int, now: Time)
    | Remove(key: K)
    | Wipe
  {
    /** A store with a non-positive lifetime is not a write at all. */
    predicate Touches(k: K) {
      match this
      case Put(key, _, ttl, _) => key == k && ttl > 0
      case Remove(key) => key == k
      case Wipe => true
    }
  }

  /** Write `i` stored under `k`, and nothing later replaced, deleted or cleared it. */
  ghost predicate LastStore<K, V>(ws: seq<Write<K, V>>, k: K, i: nat) {
    && i < |ws| && ws[i].Put? && ws[i].key == k && ws[i].ttl > 0
    && forall j :: i < j < |ws| ==>
         !ws[j].Wipe? && !(ws[j].Remove? && ws[j].key == k) && !(ws[j].Put? && ws[j].key == k && ws[j].ttl > 0)
  }

  function Current<K(==), V>(ws: seq<Write<K, V>>, k: K): Option<Item<V>> {
    if ws == [] then None
    else
      var w := ws[|ws| - 1];
      if !w.Touches(k) then Current(ws[..|ws| - 1], k)
      else if w.Put? then Some(Item(w.value, w.now + w.ttl))
      else None
  }

  function Lookup<K(==), V>(ws: seq<Write<K, V>>, k: K, t: Time): Option<V> {
    var item := Current(ws, k);
    if item.Some? && t < item.value.expiresAt then Some(item.value.value) else None
  }

  lemma {:induction false} CurrentIsLastStore<K, V>(ws: seq<Write<K, V>>, k: K, item: Item<V>)
    ensures Current(ws, k) == Some(item) <==>
            exists i: nat :: LastStore(ws, k, i) && item == Item(ws[i].value, ws[i].now + ws[i].ttl)
  {
    if ws != [] {
      var last := |ws| - 1;
      var before := ws[..last];
      if ws[last].Touches(k) {
        if ws[last].Put? { assert LastStore(ws, k, last); }
      } else {
        CurrentIsLastStore(before, k, item);
        forall i: nat
          ensures LastStore(ws, k, i) <==> LastStore(before, k, i)
        {
        }
        if Current(ws, k) == Some(item) {
          var i: nat :| LastStore(before, k, i) && item == Item(before[i].value, before[i].now + before[i].ttl);
          assert LastStore(ws, k, i) && ws[i] == before[i];
        }
      }
    }
  }

  /** The entries kept agree with the history, and whatever is missing has already expired. */
  ghost predicate Agree<K(!new), V>(items: map<K, Item<V>>, ws: seq<Write<K, V>>, clock: Time) {
    forall k :: AgreeOn(items, ws, clock, k)
  }

  ghost predicate AgreeOn<K, V>(items: map<K, Item<V>>, ws: seq<Write<K, V>>, clock: Time, k: K) {
    if k in items then Current(ws, k) == Some(items[k])
    else Current(ws, k).None? || Current(ws, k).value.expiresAt <= clock
  }

  lemma AgreeLater<K(!new), V>(items: map<K, Item<V>>, ws: seq<Write<K, V>>, clock: Time, later: Time)
    requires Agree(items, ws, clock) && clock <= later
    ensures Agree(items, ws, later)
  {
    forall k
      ensures AgreeOn(items, ws, later, k)
    {
      assert AgreeOn(items, ws, clock, k);
    }
  }

  /** The items after a write. */
  function Written<K(==), V>(items: map<K, Item<V>>, w: Write<K, V>): map<K, Item<V>> {
    match w
    case Put(k, v, ttl, now) => if ttl <= 0 then items else items[k := Item(v, now + ttl)]
    case Remove(k) => items - {k}
    case Wipe => map[]
  }

  lemma WriteKeepsAgreement<K(!new), V>(items: map<K, Item<V>>, ws: seq<Write<K, V>>, clock: Time, w: Write<K, V>)
    requires Agree(items, ws, clock)
    ensures Agree(Written(items, w), ws + [w], clock)
  {
    assert (ws + [w])[..|ws|] == ws;
    forall k
      ensures AgreeOn(Written(items, w), ws + [w], clock, k)
    {
      assert AgreeOn(items, ws, clock, k);
    }
  }

  /** Dropping entries that have expired, any of them at any time, keeps the agreement. */
  lemma EvictionKeepsAgreement<K(!new), V>(items: map<K, Item<V>>, ws: seq<Write<K, V>>, clock: Time, keys: set<K>)
    requires Agree(items, ws, clock)
    requires forall k :: k in keys && k in items ==> items[k].expiresAt <= clock
    ensures Agree(items - keys, ws, clock)
  {
    forall k
      ensures AgreeOn(items - keys, ws, clock, k)
    {
      assert AgreeOn(items, ws, clock, k);
    }
  }

  lemma AgreeAnswers<K(!new), V>(items: map<K, Item<V>>, ws: seq<Write<K, V>>, clock: Time, k: K)
    requires Agree(items, ws, clock)
    ensures Lookup(ws, k, clock) ==
            if k in items && clock < items[k].expiresAt then Some(items[k].value) else None
  {
    assert AgreeOn(items, ws, clock, k);
  }
}

/** The cache object, and its behaviour over every sequence of calls. */
module TtlCaches {
  import opened Basics
  import opened TtlHistory

  function Outdated<K(==), V>(items: map<K, Item<V>>, now: Time): set<K> {
    set k | k in items && !(now < items[k].expiresAt)
  }

  /** What the relock-and-recheck of a lookup does, having seen an entry expiring at `seen`. */
  function Rechecked<K(==), V>(items: map<K, Item<V>>, k: K, seen: Time): map<K, Item<V>> {
    if k in items && items[k].expiresAt == seen then items - {k} else items
  }

  datatype Call<K(==), V> =
    | Get(key: K, now: Time)
    | Len(now: Time)
    | Do(write: Write<K, V>)

  function Answer<K(==), V>(items: map<K, Item<V>>, k: K, now: Time): Option<V> {
    if k in items && now < items[k].expiresAt then Some(items[k].value) else None
  }

  function After<K(==), V>(items: map<K, Item<V>>, call: Call<K, V>): map<K, Item<V>> {
    match call
    case Get(k, now) => if k in Outdated(items, now) then items - {k} else items
    case Len(now) => items - Outdated(items, now)
    case Do(w) => Written(items, w)
  }

  function AfterAll<K(==), V>(calls: seq<Call<K, V>>): map<K, Item<V>> {
    if calls == [] then map[] else After(AfterAll(calls[..|calls| - 1]), calls[|calls| - 1])
  }

  /** A lookup, a size query, or a store without a lifetime. */
  predicate LeavesNoTrace<K(==), V>(call: Call<K, V>) {
    !call.Do? || (call.write.Put? && call.write.ttl <= 0)
  }

  /** The history: lookups, size queries and stores without a lifetime leave no trace. */
  function Writes<K(==), V>(calls: seq<Call<K, V>>): seq<Write<K, V>> {
    if calls == [] then []
    else
      var call := calls[|calls| - 1];
      Writes(calls[..|calls| - 1]) +
      (if LeavesNoTrace(call) then [] else [call.write])
  }

  /** The clock readings of the calls never decrease and do not exceed `t`. */
  ghost predicate Timed<K, V>(calls: seq<Call<K, V>>, t: Time) {
    calls == [] ||
    match calls[|calls| - 1]
    case Get(_, now) => now <= t && Timed(calls[..|calls| - 1], now)
    case Len(now) => now <= t && Timed(calls[..|calls| - 1], now)
    case Do(w) => if w.Put? then w.now <= t && Timed(calls[..|calls| - 1], w.now)
                  else Timed(calls[..|calls| - 1], t)
  }

  /** The bound on the readings before a last call, when `t` bounds those after it. */
  function Bound<K, V>(call: Call<K, V>, t: Time): Time {
    match call
    case Get(_, now) => now
    case Len(now) => now
    case Do(w) => if w.Put? then w.now else t
  }

  // ---- What any clock does to the entries ----

  /** Call `i` stored under `k`, and no later write touched `k`. */
  ghost predicate LastPut<K, V>(calls: seq<Call<K, V>>, k: K, i: int) {
    && 0 <= i < |calls| && calls[i].Do? && calls[i].write.Put? && calls[i].write.key == k && calls[i].write.ttl > 0
    && forall j :: i < j < |calls| && calls[j].Do? ==>
         var w := calls[j].write;
         !w.Wipe? && !(w.Remove? && w.key == k) && !(w.Put? && w.key == k && w.ttl > 0)
  }

  /** A lookup of `k` or a size query that read the clock at or past `expiry`. */
  predicate SeesExpired<K(==), V>(call: Call<K, V>, k: K, expiry: Time) {
    match call
    case Get(key, now) => key == k && expiry <= now
    case Len(now) => expiry <= now
    case Do(_) => false
  }

  ghost predicate SeenExpired<K, V>(calls: seq<Call<K, V>>, k: K, i: int)
    requires 0 <= i < |calls| && calls[i].Do? && calls[i].write.Put?
  {
    exists j :: i < j < |calls| && SeesExpired(calls[j], k, calls[i].write.now + calls[i].write.ttl)
  }

  /** Since the last store under `k`, some lookup or size query found it expired. */
  ghost predicate Evicted<K, V>(calls: seq<Call<K, V>>, k: K) {
    exists i :: LastPut(calls, k, i) && SeenExpired(calls, k, i)
  }

  ghost function Stored<K, V>(w: Write<K, V>): Item<V>
    requires w.Put?
  {
    Item(w.value, w.now + w.ttl)
  }

  /** The entries, told by the calls: an entry is there as it was stored, unless it was evicted. */
  ghost predicate Told<K, V>(items: map<K, Item<V>>, calls: seq<Call<K, V>>, k: K) {
    && (Current(Writes(calls), k).Some? <==> exists i :: LastPut(calls, k, i))
    && (forall i :: LastPut(calls, k, i) ==> Current(Writes(calls), k) == Some(Stored(calls[i].write)))
    && (k in items <==> Current(Writes(calls), k).Some? && !Evicted(calls, k))
    && (k in items ==> Some(items[k]) == Current(Writes(calls), k))
  }

  lemma CurrentSnoc<K, V>(calls: seq<Call<K, V>>, call: Call<K, V>, k: K)
    ensures Current(Writes(calls + [call]), k) ==
            if !call.Do? || !call.write.Touches(k) then Current(Writes(calls), k)
            else if call.write.Put? then Some(Stored(call.write)) else None
  {
    assert (calls + [call])[..|calls|] == calls;
    var ws := Writes(calls);
    if !LeavesNoTrace(call) { assert (ws + [call.write])[..|ws|] == ws; } else { assert ws + [] == ws; }
  }

  lemma LastPutSnoc<K, V>(calls: seq<Call<K, V>>, call: Call<K, V>, k: K, i: int)
    ensures LastPut(calls + [call], k, i) <==>
            if !call.Do? || !call.write.Touches(k) then LastPut(calls, k, i)
            else call.write.Put? && i == |calls|
  {
    var longer := calls + [call];
    assert longer[|calls|] == call;
    assert forall j :: 0 <= j < |calls| ==> longer[j] == calls[j];
  }

  lemma SeenExpiredSnoc<K, V>(calls: seq<Call<K, V>>, call: Call<K, V>, k: K, i: int)
    requires 0 <= i < |calls| && calls[i].Do? && calls[i].write.Put?
    ensures SeenExpired(calls + [call], k, i) <==>
            SeenExpired(calls, k, i) || SeesExpired(call, k, Stored(calls[i].write).expiresAt)
  {
    var longer, expiry := calls + [call], calls[i].write.now + calls[i].write.ttl;
    assert longer[|calls|] == call && longer[i] == calls[i];
    if SeenExpired(calls, k, i) {
      var j :| i < j < |calls| && SeesExpired(calls[j], k, expiry);
      assert longer[j] == calls[j];
    }
  }

  /** A write that touches the key is not followed by anything yet. */
  lemma ToldByWrite<K, V>(items: map<K, Item<V>>, calls: seq<Call<K, V>>, call: Call<K, V>, k: K)
    requires call.Do? && call.write.Touches(k)
    ensures Told(After(items, call), calls + [call], k)
  {
    var longer := calls + [call];
    CurrentSnoc(calls, call, k);
    forall i
      ensures LastPut(longer, k, i) <==> call.write.Put? && i == |calls|
    {
      LastPutSnoc(calls, call, k, i);
    }
    hide Current, Writes, LastPut;
    assert longer[|calls|] == call;
    assert call.write.Put? ==> LastPut(longer, k, |calls|);
  }

  /** Any other call leaves the last store as it is, and evicts it if it sees it expired. */
  lemma ToldByOther<K, V>(items: map<K, Item<V>>, calls: seq<Call<K, V>>, call: Call<K, V>, k: K)
    requires Told(items, calls, k) && !(call.Do? && call.write.Touches(k))
    ensures Told(After(items, call), calls + [call], k)
  {
    var longer := calls + [call];
    CurrentSnoc(calls, call, k);
    forall i
      ensures LastPut(longer, k, i) <==> LastPut(calls, k, i)
      ensures LastPut(calls, k, i) ==>
                (SeenExpired(longer, k, i) <==>
                   SeenExpired(calls, k, i) || SeesExpired(call, k, Stored(calls[i].write).expiresAt))
      ensures LastPut(calls, k, i) ==> longer[i] == calls[i]
    {
      LastPutSnoc(calls, call, k, i);
      if LastPut(calls, k, i) { SeenExpiredSnoc(calls, call, k, i); }
    }
    hide Current, Writes, LastPut, SeenExpired;
    if exists i :: LastPut(calls, k, i) {
      var i :| LastPut(calls, k, i);
      assert LastPut(longer, k, i);
    }
    EvictedByOther(calls, call, k);
    OtherCallOnEntry(items, call, k);
  }

  lemma EvictedByOther<K, V>(calls: seq<Call<K, V>>, call: Call<K, V>, k: K)
    requires !(call.Do? && call.write.Touches(k))
    requires forall i :: LastPut(calls, k, i) ==> Current(Writes(calls), k) == Some(Stored(calls[i].write))
    requires Current(Writes(calls), k).Some? <==> exists i :: LastPut(calls, k, i)
    ensures Evicted(calls + [call], k) <==>
            Evicted(calls, k) ||
            (Current(Writes(calls), k).Some? && SeesExpired(call, k, Current(Writes(calls), k).value.expiresAt))
  {
    var longer := calls + [call];
    forall i
      ensures LastPut(longer, k, i) <==> LastPut(calls, k, i)
      ensures LastPut(calls, k, i) ==>
                (SeenExpired(longer, k, i) <==>
                   SeenExpired(calls, k, i) || SeesExpired(call, k, Stored(calls[i].write).expiresAt))
    {
      LastPutSnoc(calls, call, k, i);
      if LastPut(calls, k, i) { SeenExpiredSnoc(calls, call, k, i); }
    }
    hide Current, Writes, SeenExpired;
    if Evicted(calls, k) {
      var i :| LastPut(calls, k, i) && SeenExpired(calls, k, i);
      assert LastPut(longer, k, i) && SeenExpired(longer, k, i);
    } else if Current(Writes(calls), k).Some? && SeesExpired(call, k, Current(Writes(calls), k).value.expiresAt) {
      var i :| LastPut(calls, k, i);
      assert LastPut(longer, k, i) && SeenExpired(longer, k, i);
    }
  }

  lemma OtherCallOnEntry<K, V>(items: map<K, Item<V>>, call: Call<K, V>, k: K)
    requires !(call.Do? && call.write.Touches(k))
    ensures k in After(items, call) <==> k in items && !SeesExpired(call, k, items[k].expiresAt)
    ensures k in After(items, call) ==> After(items, call)[k] == items[k]
  {
  }

  lemma {:induction false} CallsTell<K, V>(calls: seq<Call<K, V>>, k: K)
    ensures Told(AfterAll(calls), calls, k)
  {
    if calls != [] {
      hide Told, After, LastPut, Evicted, Current, Writes;
      var before, call := calls[..|calls| - 1], calls[|calls| - 1];
      assert calls == before + [call];
      CallsTell(before, k);
      if call.Do? && call.write.Touches(k) {
        ToldByWrite(AfterAll(before), before, call, k);
      } else {
        ToldByOther(AfterAll(before), before, call, k);
      }
    }
  }

  /** For any clock: a lookup answers as the history does, except exactly when the history still
      has a live entry that some lookup or size query since its store found expired. */
  lemma AnswersUnlessEvicted<K, V>(calls: seq<Call<K, V>>, k: K, t: Time)
    ensures Answer(AfterAll(calls), k, t) == Lookup(Writes(calls), k, t) <==>
            !(Lookup(Writes(calls), k, t).Some? && Evicted(calls, k))
  {
    CallsTell(calls, k);
    hide LastPut, Evicted, Current, Writes, AfterAll;
  }

  // ---- With a clock that does not go back ----

  lemma {:induction false} TimedReads<K, V>(calls: seq<Call<K, V>>, t: Time, j: int)
    requires Timed(calls, t) && 0 <= j < |calls|
    ensures calls[j].Get? || calls[j].Len? ==> calls[j].now <= t
  {
    var last := |calls| - 1;
    if j < last {
      TimedReads(calls[..last], Bound(calls[last], t), j);
    }
  }

  /** What a forward clock evicted stays expired. */
  lemma EvictedIsExpired<K, V>(calls: seq<Call<K, V>>, k: K, t: Time)
    requires Timed(calls, t) && Evicted(calls, k)
    ensures Current(Writes(calls), k).Some? && Current(Writes(calls), k).value.expiresAt <= t
  {
    CallsTell(calls, k);
    var i :| LastPut(calls, k, i) && SeenExpired(calls, k, i);
    var j :| i < j < |calls| && SeesExpired(calls[j], k, calls[i].write.now + calls[i].write.ttl);
    TimedReads(calls, t, j);
  }

  lemma CallsAgreeWithHistory<K(!new), V>(calls: seq<Call<K, V>>, t: Time)
    requires Timed(calls, t)
    ensures Agree(AfterAll(calls), Writes(calls), t)
  {
    forall k
      ensures AgreeOn(AfterAll(calls), Writes(calls), t, k)
    {
      CallsTell(calls, k);
      if Evicted(calls, k) { EvictedIsExpired(calls, k, t); }
    }
  }

  /** After any calls with a clock that does not go back, a lookup answers `v` exactly when the
      last effective store wrote `v`, was not undone, and has not expired. */
  lemma GetFollowsHistory<K(!new), V>(calls: seq<Call<K, V>>, k: K, t: Time, v: V)
    requires Timed(calls, t)
    ensures Answer(AfterAll(calls), k, t) == Some(v) <==>
            exists i: nat :: LastStore(Writes(calls), k, i) && Writes(calls)[i].value == v
                             && t < Writes(calls)[i].now + Writes(calls)[i].ttl
  {
    var ws := Writes(calls);
    CallsAgreeWithHistory(calls, t);
    AgreeAnswers(AfterAll(calls), ws, t, k);
    if Current(ws, k).Some? {
      CurrentIsLastStore(ws, k, Current(ws, k).value);
    }
    forall i: nat | LastStore(ws, k, i)
      ensures Current(ws, k) == Some(Item(ws[i].value, ws[i].now + ws[i].ttl))
    {
      CurrentIsLastStore(ws, k, Item(ws[i].value, ws[i].now + ws[i].ttl));
    }
  }

  /** The same, told by the calls themselves: the last call that stored under `k` with a positive
      lifetime, with no later clear, deletion of `k` or such store, wrote `v` and has not expired.
      A size query keeps exactly the keys that have such a call. */
  lemma GetFollowsCalls<K(!new), V>(calls: seq<Call<K, V>>, k: K, t: Time, v: V)
    requires Timed(calls, t)
    ensures Answer(AfterAll(calls), k, t) == Some(v) <==>
            exists i :: LastPut(calls, k, i) && calls[i].write.value == v
                        && t < calls[i].write.now + calls[i].write.ttl
    ensures k in After(AfterAll(calls), Len(t)) <==>
            exists i :: LastPut(calls, k, i) && t < calls[i].write.now + calls[i].write.ttl
  {
    CallsTell(calls, k);
    CallsAgreeWithHistory(calls, t);
    AgreeAnswers(AfterAll(calls), Writes(calls), t, k);
    hide AfterAll, Writes, Current, LastPut, Evicted;
    if Current(Writes(calls), k).Some? {
      var i :| LastPut(calls, k, i);
      assert Current(Writes(calls), k) == Some(Stored(calls[i].write));
    }
  }

  /** Calls with the same writes leave caches that cannot be told apart. */
  lemma ReadsAreTransparent<K(!new), V>(a: seq<Call<K, V>>, b: seq<Call<K, V>>, k: K, t: Time)
    requires Timed(a, t) && Timed(b, t) && Writes(a) == Writes(b)
    ensures Answer(AfterAll(a), k, t) == Answer(AfterAll(b), k, t)
    ensures After(AfterAll(a), Len(t)) == After(AfterAll(b), Len(t))
  {
    CallsAgreeWithHistory(a, t);
    CallsAgreeWithHistory(b, t);
    var x, y := After(AfterAll(a), Len(t)), After(AfterAll(b), Len(t));
    forall j
      ensures j in x <==> j in y
      ensures j in x ==> x[j] == y[j]
      ensures Answer(AfterAll(a), j, t) == Answer(AfterAll(b), j, t)
    {
      assert AgreeOn(AfterAll(a), Writes(a), t, j) && AgreeOn(AfterAll(b), Writes(b), t, j);
    }
    assert x == y;
  }

  lemma {:induction false} TimedLater<K, V>(calls: seq<Call<K, V>>, t: Time, later: Time)
    requires Timed(calls, t) && t <= later
    ensures Timed(calls, later)
  {
    if calls != [] && calls[|calls| - 1].Do? && !calls[|calls| - 1].write.Put? {
      TimedLater(calls[..|calls| - 1], t, later);
    }
  }

  lemma TimedSnoc<K, V>(calls: seq<Call<K, V>>, call: Call<K, V>, t: Time)
    ensures Timed(calls + [call], t) <==> Bound(call, t) <= t && Timed(calls, Bound(call, t))
  {
    assert (calls + [call])[..|calls|] == calls;
  }

  lemma WritesSnoc<K, V>(calls: seq<Call<K, V>>, call: Call<K, V>)
    ensures Writes(calls + [call]) == Writes(calls) + if LeavesNoTrace(call) then [] else [call.write]
  {
    assert (calls + [call])[..|calls|] == calls;
  }

  lemma {:induction false} InsertedLeavesNoTrace<K, V>(a: seq<Call<K, V>>, read: Call<K, V>, b: seq<Call<K, V>>,
                                                       t: Time)
    requires LeavesNoTrace(read) && Timed(a + [read] + b, t)
    ensures Timed(a + b, t) && Writes(a + [read] + b) == Writes(a + b)
  {
    hide Timed, Writes;
    if b == [] {
      assert a + [read] + b == a + [read] && a + b == a;
      TimedSnoc(a, read, t);
      TimedLater(a, Bound(read, t), t);
      WritesSnoc(a, read);
    } else {
      var rest, last := b[..|b| - 1], b[|b| - 1];
      assert a + [read] + b == (a + [read] + rest) + [last] && a + b == (a + rest) + [last];
      TimedSnoc(a + [read] + rest, last, t);
      TimedSnoc(a + rest, last, t);
      InsertedLeavesNoTrace(a, read, rest, Bound(last, t));
      WritesSnoc(a + [read] + rest, last);
      WritesSnoc(a + rest, last);
    }
  }

  /** A call that is not a write, inserted anywhere, changes no later answer and no later size. */
  lemma InsertedReadIsInvisible<K(!new), V>(a: seq<Call<K, V>>, read: Call<K, V>, b: seq<Call<K, V>>, k: K, t: Time)
    requires LeavesNoTrace(read) && Timed(a + [read] + b, t)
    ensures Answer(AfterAll(a + [read] + b), k, t) == Answer(AfterAll(a + b), k, t)
    ensures After(AfterAll(a + [read] + b), Len(t)) == After(AfterAll(a + b), Len(t))
  {
    InsertedLeavesNoTrace(a, read, b, t);
    ReadsAreTransparent(a + [read] + b, a + b, k, t);
  }

  /** What a size query counts is exactly the keys a lookup would find. */
  lemma LenCountsLiveKeys<K(!new), V>(calls: seq<Call<K, V>>, t: Time, k: K)
    requires Timed(calls, t)
    ensures k in After(AfterAll(calls), Len(t)) <==> Lookup(Writes(calls), k, t).Some?
  {
    CallsAgreeWithHistory(calls, t);
    AgreeAnswers(AfterAll(calls), Writes(calls), t, k);
  }

  /** A clock that goes back makes an eviction visible: the entry that the history still holds
      live at the later, smaller reading is gone. */
  lemma BackwardClockLosesLiveEntry<K, V>(k: K, v: V)
    ensures var calls := [Do(Put(k, v, 10, 0)), Get(k, 20)];
            && !Timed(calls, 5)
            && Evicted(calls, k)
            && Lookup(Writes(calls), k, 5) == Some(v)
            && Answer(AfterAll(calls), k, 5) == None
  {
    var put: Call<K, V> := Do(Put(k, v, 10, 0));
    var calls: seq<Call<K, V>> := [put] + [Get(k, 20)];
    assert calls == [put, Get(k, 20)] && [put][..0] == [] && [] + [put] == [put];
    WritesSnoc([], put);
    WritesSnoc([put], Get(k, 20));
    assert Writes(calls) == [put.write];
    assert LastPut(calls, k, 0) && SeesExpired(calls[1], k, 10);
    hide Writes, AfterAll;
    AnswersUnlessEvicted(calls, k, 5);
    CallsTell(calls, k);
  }

  /** The entries once a purge has visited all keys but `todo`. */
  ghost function Purged<K, V>(items: map<K, Item<V>>, now: Time, todo: set<K>): map<K, Item<V>> {
    map k | k in items && (k in todo || now < items[k].expiresAt) :: items[k]
  }

  lemma PurgeVisits<K, V>(items: map<K, Item<V>>, now: Time, todo: set<K>, key: K)
    requires key in todo && key in items
    ensures key in Purged(items, now, todo) && Purged(items, now, todo)[key] == items[key]
    ensures Purged(items, now, todo - {key}) ==
            if now < items[key].expiresAt then Purged(items, now, todo) else Purged(items, now, todo) - {key}
  {
  }

  lemma PurgeEnds<K, V>(items: map<K, Item<V>>, now: Time)
    ensures Purged(items, now, items.Keys) == items
    ensures Purged(items, now, {}) == items - Outdated(items, now)
  {
  }

  datatype CacheStats =
    CacheStats(entries: nat, hits: nat, misses: nat, sets: nat, deletes: nat, expired: nat, clears: nat)

  class TtlCache<K(==), V> {
    const ttl: int
    var items: map<K, Item<V>>
    var hits: nat
    var misses: nat
    var sets: nat
    var deletes: nat
    var expired: nat
    var clears: nat

    constructor (ttl: int)
      ensures this.ttl == ttl && items == AfterAll<K, V>([])
      ensures hits == misses == sets == deletes == expired == clears == 0
    {
      this.ttl := ttl;
      items := map[];
      hits, misses, sets, deletes, expired, clears := 0, 0, 0, 0, 0, 0;
    }

    /** The write-locked half of a lookup: drop the entry only if it is still the one seen. */
    method Recheck(key: K, seen: Time)
      modifies this`items, this`expired
      ensures items == Rechecked(old(items), key, seen)
      ensures expired + |items| == old(expired) + |old(items)|
    {
      if key in items && items[key].expiresAt == seen {
        items := items - {key};
        expired := expired + 1;
      }
    }

    method Get(key: K, now: Time) returns (result: Option<V>)
      modifies this`items, this`hits, this`misses, this`expired
      ensures result == Answer(old(items), key, now)
      ensures items == After(old(items), Call.Get(key, now))
      ensures hits == old(hits) + if result.Some? then 1 else 0
      ensures misses == old(misses) + if result.None? then 1 else 0
      ensures expired + |items| == old(expired) + |old(items)|
    {
      if key !in items {
        misses := misses + 1;
        return None;
      }
      var item := items[key];
      if now < item.expiresAt {
        hits := hits + 1;
        return Some(item.value);
      }
      Recheck(key, item.expiresAt);
      misses := misses + 1;
      return None;
    }

    method Set(key: K, value: V, now: Time)
      modifies this`items, this`sets
      ensures items == After(old(items), Do(Put(key, value, ttl, now)))
      ensures sets == old(sets) + if ttl > 0 then 1 else 0
    {
      SetWithTTL(key, value, ttl, now);
    }

    method SetWithTTL(key: K, value: V, ttl: int, now: Time)
      modifies this`items, this`sets
      ensures items == After(old(items), Do(Put(key, value, ttl, now)))
      ensures sets == old(sets) + if ttl > 0 then 1 else 0
    {
      if ttl <= 0 {
        return;
      }
      items := items[key := Item(value, now + ttl)];
      sets := sets + 1;
    }

    method Delete(key: K)
      modifies this`items, this`deletes
      ensures items == After(old(items), Do(Remove(key)))
      ensures deletes + |items| == old(deletes) + |old(items)|
    {
      if key in items {
        items := items - {key};
        deletes := deletes + 1;
      }
    }

    method Clear()
      modifies this`items, this`clears
      ensures items == After(old(items), Do(Wipe))
      ensures clears == old(clears) + 1
    {
      items := map[];
      clears := clears + 1;
    }

    /** The purge visits every entry once, in whatever order, deleting as it goes. */
    method Len(now: Time) returns (size: nat)
      modifies this`items, this`expired
      ensures items == After(old(items), Call.Len(now)) && size == |items|
      ensures expired + |items| == old(expired) + |old(items)|
    {
      PurgeEnds(items, now);
      var purged := 0;
      var todo := items.Keys;
      while todo != {}
        invariant todo <= old(items).Keys
        invariant items == Purged(old(items), now, todo)
        invariant purged + |items| == |old(items)| && expired == old(expired)
        decreases |todo|
      {
        hide Purged, Outdated;
        var key :| key in todo;
        PurgeVisits(old(items), now, todo, key);
        if !(now < items[key].expiresAt) {
          items := items - {key};
          purged := purged + 1;
        }
        todo := todo - {key};
      }
      size := |items|;
      if purged > 0 {
        expired := expired + purged;
      }
    }

    method Stats(now: Time) returns (stats: CacheStats)
      modifies this`items, this`expired
      ensures items == After(old(items), Call.Len(now))
      ensures expired + |items| == old(expired) + |old(items)|
      ensures stats == CacheStats(|items|, hits, misses, sets, deletes, expired, clears)
      ensures stats.entries == |items| && stats.hits == hits && stats.misses == misses && stats.sets == sets
      ensures stats.deletes == deletes && stats.expired == expired && stats.clears == clears
    {
      var entries := Len(now);
      stats := CacheStats(entries, hits, misses, sets, deletes, expired, clears);
    }
  }
}
