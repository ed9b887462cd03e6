/** The last successful value per key, with failed refreshes tracked separately. */
module LastKnownGoods {
  import opened Basics

  datatype Event<K, V> =
    | Success(key: K, value: V, now: Time)
    | Failure(key: K, now: Time)
    | Delete(key: K)

  datatype Entry<V> =
    Entry(value: V, available: bool, lastSuccess: Time, lastAttempt: Time, failures: nat)

  datatype Result<V> =
    Result(value: V, available: bool, stale: bool, lastSuccess: Time, lastAttempt: Time, failures: nat)

  datatype Listed<K, V> = Listed(key: K, result: Result<V>)

  // ---- The history, read directly ----

  ghost predicate Resets<K, V>(e: Event<K, V>, k: K) {
    e.key == k && !e.Failure?
  }

  /** Failures of the key that no success or deletion of it followed. */
  ghost function OpenFailures<K, V>(h: seq<Event<K, V>>, k: K): set<int> {
    set i | 0 <= i < |h| && OpenFailure(h, k, i)
  }

  ghost predicate OpenFailure<K, V>(h: seq<Event<K, V>>, k: K, i: int)
    requires 0 <= i < |h|
  {
    h[i].Failure? && h[i].key == k && forall j :: i < j < |h| ==> !Resets(h[j], k)
  }

  /** The last success of the key, not undone by a deletion. */
  ghost predicate LastSuccess<K, V>(h: seq<Event<K, V>>, k: K, i: int) {
    0 <= i < |h| && h[i].Success? && h[i].key == k && forall j :: i < j < |h| ==> !Resets(h[j], k)
  }

  ghost predicate LastEvent<K, V>(h: seq<Event<K, V>>, k: K, i: int) {
    0 <= i < |h| && h[i].key == k && forall j :: i < j < |h| ==> h[j].key != k
  }

  // ---- The tracker ----

  function NoEntry<V>(zero: V): Entry<V> {
    Entry(zero, false, ZERO_TIME, ZERO_TIME, 0)
  }

  function Lookup<K, V>(entries: map<K, Entry<V>>, zero: V, k: K): Entry<V> {
    if k in entries then entries[k] else NoEntry(zero)
  }

  function After<K, V>(entries: map<K, Entry<V>>, zero: V, e: Event<K, V>): map<K, Entry<V>> {
    match e
    case Success(k, v, now) => entries[k := Entry(v, true, now, now, 0)]
    case Failure(k, now) =>
      var entry := Lookup(entries, zero, k);
      entries[k := entry.(lastAttempt := now, failures := entry.failures + 1)]
    case Delete(k) => entries - {k}
  }

  function AfterAll<K, V>(zero: V, h: seq<Event<K, V>>): map<K, Entry<V>> {
    if h == [] then map[] else After(AfterAll(zero, h[..|h| - 1]), zero, h[|h| - 1])
  }

  function ResultOf<V>(entry: Entry<V>, staleAfter: int, now: Time): Result<V> {
    Result(entry.value, entry.available,
           entry.available && staleAfter > 0 && !(now < entry.lastSuccess + staleAfter),
           entry.lastSuccess, entry.lastAttempt, entry.failures)
  }

  function Answer<K, V>(entries: map<K, Entry<V>>, zero: V, staleAfter: int, k: K, now: Time): Result<V> {
    ResultOf(Lookup(entries, zero, k), staleAfter, now)
  }

  lemma OpenFailuresSnoc<K, V>(h: seq<Event<K, V>>, e: Event<K, V>, k: K)
    ensures OpenFailures(h + [e], k) ==
            if Resets(e, k) then {}
            else if e.Failure? && e.key == k then OpenFailures(h, k) + {|h|}
            else OpenFailures(h, k)
  {
    var g := h + [e];
    assert g[|h|] == e;
    forall i | 0 <= i < |h|
      ensures OpenFailure(g, k, i) <==> !Resets(e, k) && OpenFailure(h, k, i)
    {
      if OpenFailure(g, k, i) { assert forall j :: i < j < |h| ==> g[j] == h[j]; }
    }
  }

  lemma LastSuccessSnoc<K, V>(h: seq<Event<K, V>>, e: Event<K, V>, k: K, i: int)
    ensures LastSuccess(h + [e], k, i) <==>
            if Resets(e, k) then e.Success? && i == |h| else LastSuccess(h, k, i)
  {
    var g := h + [e];
    assert g[|h|] == e;
    assert forall j :: 0 <= j < |h| ==> g[j] == h[j];
  }

  lemma {:induction false} FailuresTellHistory<K, V>(zero: V, h: seq<Event<K, V>>, k: K)
    ensures Lookup(AfterAll(zero, h), zero, k).failures == |OpenFailures(h, k)|
  {
    if h == [] {
      assert OpenFailures(h, k) == {};
    } else {
      var before, e := h[..|h| - 1], h[|h| - 1];
      assert h == before + [e];
      FailuresTellHistory(zero, before, k);
      OpenFailuresSnoc(before, e, k);
    }
  }

  ghost predicate TellsSuccess<K, V>(entry: Entry<V>, zero: V, h: seq<Event<K, V>>, k: K) {
    && (entry.available <==> exists i :: LastSuccess(h, k, i))
    && (forall i :: LastSuccess(h, k, i) ==> entry.value == h[i].value && entry.lastSuccess == h[i].now)
    && (!entry.available ==> entry.value == zero && entry.lastSuccess == ZERO_TIME)
  }

  lemma {:induction false} SuccessTellsHistory<K, V>(zero: V, h: seq<Event<K, V>>, k: K)
    ensures TellsSuccess(Lookup(AfterAll(zero, h), zero, k), zero, h, k)
  {
    if h != [] {
      var before, e := h[..|h| - 1], h[|h| - 1];
      assert h == before + [e];
      SuccessTellsHistory(zero, before, k);
      forall i
        ensures LastSuccess(h, k, i) <==>
                if Resets(e, k) then e.Success? && i == |before| else LastSuccess(before, k, i)
      {
        LastSuccessSnoc(before, e, k, i);
      }
      if Resets(e, k) && e.Success? {
        assert LastSuccess(h, k, |before|);
      }
      assert forall i :: LastSuccess(before, k, i) ==> 0 <= i < |before| && h[i] == before[i];
    }
  }

  /** After any events, the failures counted are those since the last success or deletion, and
      availability, value and time are those of the last success, if there still is one, and the
      last attempt is the last event of the key, unless that deleted it. */
  lemma GetTellsHistory<K, V>(zero: V, staleAfter: int, h: seq<Event<K, V>>, k: K, now: Time)
    ensures var r := Answer(AfterAll(zero, h), zero, staleAfter, k, now);
            && r.failures == |OpenFailures(h, k)|
            && (r.available <==> exists i :: LastSuccess(h, k, i))
            && (forall i :: LastSuccess(h, k, i) ==> r.value == h[i].value && r.lastSuccess == h[i].now)
            && (!r.available ==> r.value == zero && r.lastSuccess == ZERO_TIME && !r.stale)
            && (forall i :: LastEvent(h, k, i) && !h[i].Delete? ==> r.lastAttempt == h[i].now)
            && ((forall i :: LastEvent(h, k, i) ==> h[i].Delete?) ==> r.lastAttempt == ZERO_TIME)
  {
    LastAttemptTellsHistory(zero, h, k);
    FailuresTellHistory(zero, h, k);
    SuccessTellsHistory(zero, h, k);
  }

  /** The last attempt is the last event of the key; a key last deleted, or never seen, is gone. */
  lemma {:induction false} LastAttemptTellsHistory<K, V>(zero: V, h: seq<Event<K, V>>, k: K)
    ensures k in AfterAll(zero, h) <==> exists i :: LastEvent(h, k, i) && !h[i].Delete?
    ensures forall i :: LastEvent(h, k, i) && !h[i].Delete? ==>
              Lookup(AfterAll(zero, h), zero, k).lastAttempt == h[i].now
  {
    if h != [] {
      var before, e := h[..|h| - 1], h[|h| - 1];
      LastAttemptTellsHistory(zero, before, k);
      if e.key == k {
        assert LastEvent(h, k, |h| - 1);
      } else {
        assert forall i :: LastEvent(h, k, i) <==> LastEvent(before, k, i);
        if k in AfterAll(zero, before) {
          var i :| LastEvent(before, k, i) && !before[i].Delete?;
          assert LastEvent(h, k, i) && !h[i].Delete?;
        }
      }
    }
  }

  // ---- Independence of keys, and staleness ----

  ghost function Of<K, V>(h: seq<Event<K, V>>, k: K): seq<Event<K, V>> {
    if h == [] then []
    else Of(h[..|h| - 1], k) + if h[|h| - 1].key == k then [h[|h| - 1]] else []
  }

  lemma {:induction false} OwnEventsSuffice<K, V>(zero: V, h: seq<Event<K, V>>, k: K)
    ensures k in AfterAll(zero, h) <==> k in AfterAll(zero, Of(h, k))
    ensures Lookup(AfterAll(zero, h), zero, k) == Lookup(AfterAll(zero, Of(h, k)), zero, k)
  {
    if h != [] {
      var before, e := h[..|h| - 1], h[|h| - 1];
      OwnEventsSuffice(zero, before, k);
      if e.key == k {
        assert Of(h, k)[..|Of(h, k)| - 1] == Of(before, k);
      } else {
        assert Of(h, k) == Of(before, k);
      }
    }
  }

  /** However the events of other keys are interleaved, a key's answer depends on its own. */
  lemma KeysDoNotInterfere<K, V>(zero: V, staleAfter: int, g: seq<Event<K, V>>, h: seq<Event<K, V>>, k: K, now: Time)
    requires Of(g, k) == Of(h, k)
    ensures k in AfterAll(zero, g) <==> k in AfterAll(zero, h)
    ensures Answer(AfterAll(zero, g), zero, staleAfter, k, now) == Answer(AfterAll(zero, h), zero, staleAfter, k, now)
  {
    OwnEventsSuffice(zero, g, k);
    OwnEventsSuffice(zero, h, k);
  }

  /** A key is stale from a fixed moment on: when the threshold has passed since its last
      success. Without a success or a positive threshold it never is. */
  lemma StaleFromAMoment<K, V>(zero: V, staleAfter: int, h: seq<Event<K, V>>, k: K, now: Time)
    ensures Answer(AfterAll(zero, h), zero, staleAfter, k, now).stale <==>
            staleAfter > 0 && exists i :: LastSuccess(h, k, i) && h[i].now + staleAfter <= now
  {
    GetTellsHistory(zero, staleAfter, h, k, now);
  }

  ghost function KeysOf<K, V>(listed: seq<Listed<K, V>>): (keys: seq<K>)
    ensures |keys| == |listed| && forall i :: 0 <= i < |keys| ==> keys[i] == listed[i].key
  {
    seq(|listed|, i requires 0 <= i < |listed| => listed[i].key)
  }

  lemma OneMoreKey<K, V>(listed: seq<Listed<K, V>>, item: Listed<K, V>)
    requires Distinct(KeysOf(listed)) && item.key !in KeysOf(listed)
    ensures Distinct(KeysOf(listed + [item]))
    ensures forall k :: k in KeysOf(listed + [item]) <==> k in KeysOf(listed) || k == item.key
  {
    assert KeysOf(listed + [item]) == KeysOf(listed) + [item.key];
  }

  lemma ListedOnce<K, V>(listed: seq<Listed<K, V>>)
    requires Distinct(KeysOf(listed))
    ensures forall i, j :: 0 <= i < j < |listed| ==> listed[i].key != listed[j].key
    ensures forall k :: k in KeysOf(listed) <==> exists i :: 0 <= i < |listed| && listed[i].key == k
  {
    var keys := KeysOf(listed);
    forall i, j | 0 <= i < j < |listed|
      ensures listed[i].key != listed[j].key
    {
      assert keys[i] != keys[j];
    }
    forall k
      ensures k in keys <==> exists i :: 0 <= i < |listed| && listed[i].key == k
    {
      if k in keys {
        var i :| 0 <= i < |keys| && keys[i] == k;
        assert listed[i].key == k;
      }
    }
  }

  class LastKnownGood<K(==), V> {
    const staleAfter: int
    const zero: V
    var entries: map<K, Entry<V>>

    constructor (staleAfter: int, zero: V)
      ensures this.staleAfter == staleAfter && this.zero == zero
      ensures entries == AfterAll<K, V>(zero, [])
    {
      this.staleAfter, this.zero := staleAfter, zero;
      entries := map[];
    }

    method Success(key: K, value: V, now: Time)
      modifies this
      ensures entries == After(old(entries), zero, Event.Success(key, value, now))
    {
      entries := entries[key := Entry(value, true, now, now, 0)];
    }

    method Failure(key: K, now: Time)
      modifies this
      ensures entries == After(old(entries), zero, Event.Failure(key, now))
    {
      var entry := NoEntry(zero);
      if key in entries {
        entry := entries[key];
      }
      entry := entry.(lastAttempt := now);
      entry := entry.(failures := entry.failures + 1);
      entries := entries[key := entry];
    }

    method Delete(key: K)
      modifies this
      ensures entries == After(old(entries), zero, Event.Delete(key))
    {
      entries := entries - {key};
    }

    method Get(key: K, now: Time) returns (result: Result<V>)
      ensures result == Answer(entries, zero, staleAfter, key, now)
    {
      if key !in entries {
        return Result(zero, false, false, ZERO_TIME, ZERO_TIME, 0);
      }
      result := ResultOf(entries[key], staleAfter, now);
    }

    /** Every key once, in no particular order, with the result `Get` gives for it. */
    method Snapshot(now: Time) returns (listed: seq<Listed<K, V>>)
      ensures |listed| == |entries|
      ensures forall i, j :: 0 <= i < j < |listed| ==> listed[i].key != listed[j].key
      ensures forall k :: k in entries <==> exists i :: 0 <= i < |listed| && listed[i].key == k
      ensures forall i :: 0 <= i < |listed| ==>
                listed[i].result == Answer(entries, zero, staleAfter, listed[i].key, now)
    {
      listed := [];
      var todo := entries.Keys;
      while todo != {}
        invariant todo <= entries.Keys && |listed| + |todo| == |entries|
        invariant Distinct(KeysOf(listed))
        invariant forall k :: k in KeysOf(listed) <==> k in entries && k !in todo
        invariant forall i :: 0 <= i < |listed| ==>
                    listed[i].result == Answer(entries, zero, staleAfter, listed[i].key, now)
        decreases |todo|
      {
        var key :| key in todo;
        var item := Listed(key, ResultOf(entries[key], staleAfter, now));
        OneMoreKey(listed, item);
        hide Distinct, KeysOf;
        listed := listed + [item];
        todo := todo - {key};
      }
      ListedOnce(listed);
    }

    method Len() returns (size: nat)
      ensures size == |entries|
    {
      size := |entries|;
    }
  }
}
