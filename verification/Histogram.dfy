/** The cumulative histogram of collection durations kept by the snapshot collector. */
module Histograms {
  import opened Basics

  /** A bucket's upper bound; durations and finite bounds share one integer unit. */
  datatype Bound = UpTo(limit: int) | Infinity

  type Cells = map<Bound, nat>

  datatype Histogram = Histogram(count: nat, sum: int, buckets: Cells)

  predicate Covers(b: Bound, duration: int) {
    b.Infinity? || duration <= b.limit
  }

  predicate AtMost(a: Bound, b: Bound) {
    b.Infinity? || (a.UpTo? && a.limit <= b.limit)
  }

  ghost predicate Increasing(bounds: seq<int>) {
    forall i, j :: 0 <= i < j < |bounds| ==> bounds[i] < bounds[j]
  }

  ghost predicate IsBound(bounds: seq<int>, b: Bound) {
    b.Infinity? || b.limit in bounds
  }

  /** The buckets of a table are the configured finite bounds and +Inf. */
  ghost predicate Complete(cells: Cells, bounds: seq<int>) {
    forall b :: b in cells <==> IsBound(bounds, b)
  }

  function Sum(ds: seq<int>): int {
    if ds == [] then 0 else Sum(ds[..|ds| - 1]) + ds[|ds| - 1]
  }

  /** The number of durations at or below the bound, counted by position. */
  ghost function CountCovered(ds: seq<int>, b: Bound): nat {
    |set i | 0 <= i < |ds| && Covers(b, ds[i])|
  }

  /** The specification: `h` shows exactly the durations `ds`. */
  ghost predicate Shows(h: Histogram, bounds: seq<int>, ds: seq<int>) {
    && h.count == |ds|
    && h.sum == Sum(ds)
    && Complete(h.buckets, bounds)
    && forall b :: b in h.buckets ==> h.buckets[b] == CountCovered(ds, b)
  }

  function Tallied(cells: Cells, d: int): Cells {
    map b | b in cells :: cells[b] + if Covers(b, d) then 1 else 0
  }

  /** One observation, as a function of the histogram before it. */
  function Observed(h: Histogram, d: int): Histogram {
    Histogram(h.count + 1, h.sum + d, Tallied(h.buckets, d))
  }

  lemma CountCoveredSnoc(ds: seq<int>, d: int, b: Bound)
    ensures CountCovered(ds + [d], b) == CountCovered(ds, b) + if Covers(b, d) then 1 else 0
  {
    var before := set i | 0 <= i < |ds| && Covers(b, ds[i]);
    var after := set i | 0 <= i < |ds + [d]| && Covers(b, (ds + [d])[i]);
    assert after == before + if Covers(b, d) then {|ds|} else {};
  }

  /** Observing incrementally keeps the histogram equal to that of the whole history. */
  lemma ObserveExtendsHistory(h: Histogram, bounds: seq<int>, ds: seq<int>, d: int)
    requires Shows(h, bounds, ds)
    ensures Shows(Observed(h, d), bounds, ds + [d])
  {
    assert (ds + [d])[..|ds|] == ds;
    forall b | b in h.buckets
      ensures CountCovered(ds + [d], b) == CountCovered(ds, b) + if Covers(b, d) then 1 else 0
    {
      CountCoveredSnoc(ds, d, b);
    }
  }

  /** A history determines its histogram. */
  lemma HistogramIsUnique(h: Histogram, h': Histogram, bounds: seq<int>, ds: seq<int>)
    requires Shows(h, bounds, ds) && Shows(h', bounds, ds)
    ensures h == h'
  {
    assert h.buckets.Keys == h'.buckets.Keys;
    assert h.buckets == h'.buckets;
  }

  ghost function Indices(n: nat): (s: set<int>)
    ensures forall i :: i in s <==> 0 <= i < n
    ensures |s| == n
  {
    if n == 0 then {} else Indices(n - 1) + {n - 1}
  }

  lemma WiderBoundCoversMore(ds: seq<int>, a: Bound, b: Bound)
    requires AtMost(a, b)
    ensures CountCovered(ds, a) <= CountCovered(ds, b)
  {
    var inA := set i | 0 <= i < |ds| && Covers(a, ds[i]);
    var inB := set i | 0 <= i < |ds| && Covers(b, ds[i]);
    assert inA <= inB;
    SubsetIsNoLarger(inA, inB);
  }

  lemma InfinityCoversAll(ds: seq<int>)
    ensures CountCovered(ds, Infinity) == |ds|
  {
    var covered := set i | 0 <= i < |ds| && Covers(Infinity, ds[i]);
    assert covered == Indices(|ds|);
  }

  /** Buckets grow with the bound, and the +Inf bucket is the count. */
  lemma BucketsAreCumulative(h: Histogram, bounds: seq<int>, ds: seq<int>, a: Bound, b: Bound)
    requires Shows(h, bounds, ds) && a in h.buckets && b in h.buckets && AtMost(a, b)
    ensures h.buckets[a] <= h.buckets[b]
    ensures Infinity in h.buckets && h.buckets[Infinity] == h.count
  {
    hide CountCovered, AtMost, Sum;
    WiderBoundCoversMore(ds, a, b);
    InfinityCoversAll(ds);
    assert IsBound(bounds, Infinity);
  }

  /** A bucket counts the durations at or below its bound, each by its place in the history; the sum
      is that of the durations, one after the other. */
  lemma BucketsCountDurations(h: Histogram, bounds: seq<int>, ds: seq<int>, limit: int)
    requires Shows(h, bounds, ds)
    ensures limit in bounds <==> UpTo(limit) in h.buckets
    ensures limit in bounds ==> h.buckets[UpTo(limit)] == |set i | 0 <= i < |ds| && ds[i] <= limit|
    ensures Infinity in h.buckets && h.buckets[Infinity] == |ds| == h.count
    ensures ds == [] ==> h.sum == 0
    ensures ds != [] ==> h.sum == Sum(ds[..|ds| - 1]) + ds[|ds| - 1]
  {
    assert IsBound(bounds, Infinity) && (limit in bounds <==> IsBound(bounds, UpTo(limit)));
    InfinityCoversAll(ds);
    if limit in bounds {
      assert (set i | 0 <= i < |ds| && ds[i] <= limit) == set i | 0 <= i < |ds| && Covers(UpTo(limit), ds[i]);
    }
  }

  /** The cells once the finite bounds in `done` have been tallied. */
  ghost function Bumped(cells: Cells, done: seq<int>, d: int): Cells {
    map b | b in cells :: cells[b] + if Covers(b, d) && b.UpTo? && b.limit in done then 1 else 0
  }

  lemma BumpNone(cells: Cells, bounds: seq<int>, d: int)
    ensures Bumped(cells, bounds[..0], d) == cells
  {
  }

  lemma PrefixNext(bounds: seq<int>, i: nat, limit: int)
    requires i < |bounds| && Increasing(bounds)
    ensures limit in bounds[..i + 1] <==> limit in bounds[..i] || limit == bounds[i]
    ensures bounds[i] !in bounds[..i]
  {
    assert bounds[..i + 1] == bounds[..i] + [bounds[i]];
  }

  lemma BumpNext(cells: Cells, bounds: seq<int>, i: nat, d: int)
    requires i < |bounds| && Increasing(bounds) && UpTo(bounds[i]) in cells
    ensures var now := Bumped(cells, bounds[..i], d);
            && UpTo(bounds[i]) in now
            && Bumped(cells, bounds[..i + 1], d) ==
               if d <= bounds[i] then now[UpTo(bounds[i]) := now[UpTo(bounds[i])] + 1] else now
  {
    hide Increasing;
    var now, next := Bumped(cells, bounds[..i], d), Bumped(cells, bounds[..i + 1], d);
    var expected := if d <= bounds[i] then now[UpTo(bounds[i]) := now[UpTo(bounds[i])] + 1] else now;
    forall b | b in cells
      ensures next[b] == expected[b]
    {
      if b.UpTo? { PrefixNext(bounds, i, b.limit); }
    }
    assert next.Keys == cells.Keys == expected.Keys;
  }

  lemma BumpAll(cells: Cells, bounds: seq<int>, d: int)
    requires Complete(cells, bounds)
    ensures Infinity in Bumped(cells, bounds[..|bounds|], d)
    ensures Tallied(cells, d) ==
            var finite := Bumped(cells, bounds[..|bounds|], d); finite[Infinity := finite[Infinity] + 1]
  {
    assert bounds[..|bounds|] == bounds && IsBound(bounds, Infinity);
  }

  /** A bucket map. It is shared by reference, which is why a clone has to copy it. */
  class BucketTable {
    var cells: Cells

    constructor ()
      ensures cells == map[]
    {
      cells := map[];
    }

    method Fill(bounds: seq<int>)
      requires cells == map[]
      modifies this
      ensures Complete(cells, bounds)
      ensures forall b :: b in cells ==> cells[b] == 0
    {
      for i := 0 to |bounds|
        invariant forall b :: b in cells <==> b.UpTo? && b.limit in bounds[..i]
        invariant forall b :: b in cells ==> cells[b] == 0
      {
        cells := cells[UpTo(bounds[i]) := 0];
      }
      cells := cells[Infinity := 0];
    }

    method Bump(bounds: seq<int>, d: int)
      requires Increasing(bounds) && Complete(cells, bounds)
      modifies this
      ensures cells == Tallied(old(cells), d)
    {
      hide Bumped, Tallied, Increasing;
      BumpNone(cells, bounds, d);
      for i := 0 to |bounds|
        invariant cells == Bumped(old(cells), bounds[..i], d)
      {
        assert IsBound(bounds, UpTo(bounds[i]));
        BumpNext(old(cells), bounds, i, d);
        if d <= bounds[i] {
          cells := cells[UpTo(bounds[i]) := cells[UpTo(bounds[i])] + 1];
        }
      }
      BumpAll(old(cells), bounds, d);
      cells := cells[Infinity := cells[Infinity] + 1];
    }

    method CopyFrom(source: BucketTable)
      requires cells == map[] && source != this
      modifies this
      ensures cells == source.cells
    {
      var todo := source.cells.Keys;
      while todo != {}
        invariant todo <= source.cells.Keys && cells == source.cells - todo
        decreases |todo|
      {
        var upperBound :| upperBound in todo;
        cells := cells[upperBound := source.cells[upperBound]];
        todo := todo - {upperBound};
      }
    }
  }

  class DurationHistogram {
    const bounds: seq<int>
    var count: nat
    var sum: int
    var buckets: BucketTable

    ghost predicate Valid()
      reads this, buckets
    {
      Increasing(bounds) && Complete(buckets.cells, bounds)
    }

    ghost function Value(): Histogram
      reads this, buckets
    {
      Histogram(count, sum, buckets.cells)
    }

    constructor (bounds: seq<int>)
      requires Increasing(bounds)
      ensures Valid() && fresh(buckets)
      ensures this.bounds == bounds && Shows(Value(), bounds, [])
    {
      this.bounds := bounds;
      count, sum := 0, 0;
      buckets := new BucketTable();
      new;
      buckets.Fill(bounds);
      assert forall b :: CountCovered([], b) == 0;
    }

    method Observe(duration: int)
      requires Valid()
      modifies this, buckets
      ensures Valid() && buckets == old(buckets)
      ensures Value() == Observed(old(Value()), duration)
    {
      count := count + 1;
      sum := sum + duration;
      buckets.Bump(bounds, duration);
    }

    /** The copy shows the same value and shares nothing with the original. */
    method Clone() returns (copy: DurationHistogram)
      requires Valid()
      ensures fresh(copy) && fresh(copy.buckets) && copy.Valid()
      ensures copy.bounds == bounds && copy.Value() == Value()
    {
      copy := new DurationHistogram(bounds);
      copy.count, copy.sum := count, sum;
      copy.buckets := new BucketTable();
      copy.buckets.CopyFrom(buckets);
    }
  }

  /** A clone still shows the history it was taken at, whatever is observed afterwards. */
  method CloneThenObserve(h: DurationHistogram, durations: seq<int>, ghost past: seq<int>)
    returns (copy: DurationHistogram)
    requires h.Valid() && Shows(h.Value(), h.bounds, past)
    modifies h, h.buckets
    ensures fresh(copy) && copy.Value() == old(h.Value()) && Shows(copy.Value(), copy.bounds, past)
    ensures h.Valid() && Shows(h.Value(), h.bounds, past + durations)
  {
    hide Shows, Observed, Complete, Increasing;
    copy := h.Clone();
    assert past + durations[..0] == past;
    for i := 0 to |durations|
      invariant h.Valid() && h.buckets == old(h.buckets)
      invariant Shows(h.Value(), h.bounds, past + durations[..i])
      invariant fresh(copy) && fresh(copy.buckets) && copy.Value() == old(h.Value())
    {
      ObserveExtendsHistory(h.Value(), h.bounds, past + durations[..i], durations[i]);
      assert past + durations[..i] + [durations[i]] == past + durations[..i + 1];
      h.Observe(durations[i]);
    }
    assert durations[..|durations|] == durations;
  }
}
