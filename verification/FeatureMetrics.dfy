/** Loading metric descriptors from specs. */
module FeatureMetrics {
  import opened Basics

  datatype Scope = Unset | Feature | Namespace | Absolute

  datatype Spec = Spec(id: string, scope: Scope, name: string, help: string, labels: seq<string>)

  datatype Desc = Desc(name: string, help: string, labels: seq<string>)

  datatype Descriptors = Descriptors(order: seq<string>, descs: map<string, Desc>)

  /** The panics of the loader. */
  datatype LoadError =
    | EmptyId(index: nat)
    | DuplicateId(id: string)
    | EmptyName(id: string)
    | DuplicateName(name: string, previous: string, id: string)

  datatype Loaded = Ok(descriptors: Descriptors) | Panic(error: LoadError)

  function MetricName(spec: Spec, feature: string, namespace: string): string {
    match spec.scope
    case Feature => feature + spec.name
    case Namespace => namespace + spec.name
    case Absolute => spec.name
    case Unset => spec.name
  }

  function DescOf(spec: Spec, feature: string, namespace: string): Desc {
    Desc(MetricName(spec, feature, namespace), spec.help, spec.labels)
  }

  // ---- What can be loaded ----

  ghost predicate ValidIds(specs: seq<Spec>) {
    && (forall i :: 0 <= i < |specs| ==> specs[i].id != "")
    && forall i, j :: 0 <= i < j < |specs| ==> specs[i].id != specs[j].id
  }

  ghost predicate ValidNames(specs: seq<Spec>, feature: string, namespace: string) {
    && (forall i :: 0 <= i < |specs| ==> MetricName(specs[i], feature, namespace) != "")
    && forall i, j :: 0 <= i < j < |specs| ==>
         MetricName(specs[i], feature, namespace) != MetricName(specs[j], feature, namespace)
  }

  ghost predicate Loadable(specs: seq<Spec>, feature: string, namespace: string) {
    ValidIds(specs) && ValidNames(specs, feature, namespace)
  }

  /** The descriptors that the specs describe, one by one and in order. */
  ghost predicate Describes(d: Descriptors, specs: seq<Spec>, feature: string, namespace: string) {
    && |d.order| == |specs|
    && (forall i :: 0 <= i < |specs| ==>
          && d.order[i] == specs[i].id
          && specs[i].id in d.descs
          && d.descs[specs[i].id] == DescOf(specs[i], feature, namespace))
    && forall id :: id in d.descs ==> exists i :: 0 <= i < |specs| && specs[i].id == id
  }

  /** The error names the first offence: IDs are checked before any name is. */
  ghost predicate Explains(e: LoadError, specs: seq<Spec>, feature: string, namespace: string) {
    match e
    case EmptyId(i) => i < |specs| && specs[i].id == "" && ValidIds(specs[..i])
    case DuplicateId(id) =>
      exists i, j :: 0 <= i < j < |specs| && specs[i].id == specs[j].id == id && ValidIds(specs[..j])
    case EmptyName(id) =>
      && ValidIds(specs)
      && exists i :: 0 <= i < |specs| && specs[i].id == id && MetricName(specs[i], feature, namespace) == ""
                     && ValidNames(specs[..i], feature, namespace)
    case DuplicateName(name, previous, id) =>
      && ValidIds(specs)
      && exists i, j :: 0 <= i < j < |specs| && specs[i].id == previous && specs[j].id == id
                        && MetricName(specs[i], feature, namespace) == name == MetricName(specs[j], feature, namespace)
                        && ValidNames(specs[..j], feature, namespace)
  }

  method ValidateSpecs(specs: seq<Spec>) returns (error: Option<LoadError>)
    ensures error.None? <==> ValidIds(specs)
    ensures error.Some? ==> (error.value.EmptyId? || error.value.DuplicateId?) && Explains(error.value, specs, "", "")
  {
    var seen: set<string> := {};
    for index := 0 to |specs|
      invariant ValidIds(specs[..index])
      invariant forall id :: id in seen <==> exists i :: 0 <= i < index && specs[i].id == id
    {
      var id := specs[index].id;
      if id == "" {
        return Some(EmptyId(index));
      }
      if id in seen {
        var i :| 0 <= i < index && specs[i].id == id;
        return Some(DuplicateId(id));
      }
      seen := seen + {id};
    }
    assert specs[..|specs|] == specs;
    return None;
  }

  /** The names rendered so far, each with the ID that rendered it. */
  ghost predicate Seen(names: map<string, string>, specs: seq<Spec>, n: nat, feature: string, namespace: string)
    requires n <= |specs|
  {
    && (forall name :: name in names ==>
          exists i :: 0 <= i < n && MetricName(specs[i], feature, namespace) == name && specs[i].id == names[name])
    && forall i :: 0 <= i < n ==> MetricName(specs[i], feature, namespace) in names
  }

  lemma SeenNext(names: map<string, string>, specs: seq<Spec>, n: nat, feature: string, namespace: string)
    requires n < |specs| && Seen(names, specs, n, feature, namespace) && ValidNames(specs[..n], feature, namespace)
    requires MetricName(specs[n], feature, namespace) != "" && MetricName(specs[n], feature, namespace) !in names
    ensures Seen(names[MetricName(specs[n], feature, namespace) := specs[n].id], specs, n + 1, feature, namespace)
    ensures ValidNames(specs[..n + 1], feature, namespace)
  {
    hide MetricName;
    assert specs[..n + 1] == specs[..n] + [specs[n]];
    var now := names[MetricName(specs[n], feature, namespace) := specs[n].id];
    forall name | name in now
      ensures exists i :: 0 <= i < n + 1 && MetricName(specs[i], feature, namespace) == name && specs[i].id == now[name]
    {
      if name in names && name != MetricName(specs[n], feature, namespace) {
        var i :| 0 <= i < n && MetricName(specs[i], feature, namespace) == name && specs[i].id == names[name];
        assert specs[i].id == now[name];
      } else {
        assert specs[n].id == now[name];
      }
    }
  }

  lemma IdErrorStopsLoading(e: LoadError, specs: seq<Spec>, feature: string, namespace: string)
    requires !ValidIds(specs) && (e.EmptyId? || e.DuplicateId?) && Explains(e, specs, "", "")
    ensures Explains(e, specs, feature, namespace) && !Loadable(specs, feature, namespace)
  {
  }

  lemma EmptyNameStopsLoading(specs: seq<Spec>, n: nat, feature: string, namespace: string)
    requires ValidIds(specs) && n < |specs| && ValidNames(specs[..n], feature, namespace)
    requires MetricName(specs[n], feature, namespace) == ""
    ensures Explains(EmptyName(specs[n].id), specs, feature, namespace) && !Loadable(specs, feature, namespace)
  {
    hide MetricName;
  }

  lemma RepeatedNameStopsLoading(names: map<string, string>, specs: seq<Spec>, n: nat, feature: string,
                                 namespace: string)
    requires ValidIds(specs) && n < |specs| && ValidNames(specs[..n], feature, namespace)
    requires Seen(names, specs, n, feature, namespace) && MetricName(specs[n], feature, namespace) in names
    ensures !Loadable(specs, feature, namespace)
    ensures var name := MetricName(specs[n], feature, namespace);
            Explains(DuplicateName(name, names[name], specs[n].id), specs, feature, namespace)
  {
    hide MetricName;
    var name := MetricName(specs[n], feature, namespace);
    var i :| 0 <= i < n && MetricName(specs[i], feature, namespace) == name && specs[i].id == names[name];
  }

  lemma NothingLoadedYet(specs: seq<Spec>, feature: string, namespace: string)
    ensures ValidNames(specs[..0], feature, namespace) && Seen(map[], specs, 0, feature, namespace)
    ensures Describes(Descriptors([], map[]), specs[..0], feature, namespace)
  {
  }

  lemma LoadableByParts(specs: seq<Spec>, feature: string, namespace: string)
    requires ValidIds(specs) && ValidNames(specs[..|specs|], feature, namespace)
    ensures Loadable(specs, feature, namespace) && specs[..|specs|] == specs
  {
    assert specs[..|specs|] == specs;
  }

  method LoadFeatureMetricDescriptors(feature: string, namespace: string, specs: seq<Spec>) returns (r: Loaded)
    ensures r.Ok? <==> Loadable(specs, feature, namespace)
    ensures r.Ok? ==> Describes(r.descriptors, specs, feature, namespace)
    ensures r.Panic? ==> Explains(r.error, specs, feature, namespace)
  {
    hide Loadable, ValidIds, ValidNames, Seen, Describes, Explains, MetricName;
    var invalid := ValidateSpecs(specs);
    if invalid.Some? {
      IdErrorStopsLoading(invalid.value, specs, feature, namespace);
      return Panic(invalid.value);
    }
    var seenNames: map<string, string> := map[];
    var metrics := Descriptors([], map[]);
    NothingLoadedYet(specs, feature, namespace);
    for n := 0 to |specs|
      invariant ValidNames(specs[..n], feature, namespace)
      invariant Describes(metrics, specs[..n], feature, namespace)
      invariant Seen(seenNames, specs, n, feature, namespace)
    {
      var spec := specs[n];
      var name := MetricName(spec, feature, namespace);
      if name == "" {
        EmptyNameStopsLoading(specs, n, feature, namespace);
        return Panic(EmptyName(spec.id));
      }
      if name in seenNames {
        RepeatedNameStopsLoading(seenNames, specs, n, feature, namespace);
        return Panic(DuplicateName(name, seenNames[name], spec.id));
      }
      DescribesNext(metrics, specs, n, feature, namespace);
      SeenNext(seenNames, specs, n, feature, namespace);
      seenNames := seenNames[name := spec.id];
      metrics := Descriptors(metrics.order + [spec.id],
                             metrics.descs[spec.id := Desc(name, spec.help, spec.labels)]);
    }
    LoadableByParts(specs, feature, namespace);
    return Ok(metrics);
  }

  lemma DescribesNext(d: Descriptors, specs: seq<Spec>, n: nat, feature: string, namespace: string)
    requires n < |specs| && ValidIds(specs) && Describes(d, specs[..n], feature, namespace)
    ensures Describes(Descriptors(d.order + [specs[n].id],
                                  d.descs[specs[n].id := DescOf(specs[n], feature, namespace)]),
                      specs[..n + 1], feature, namespace)
  {
    hide DescOf;
    var next := specs[..n + 1];
    assert next == specs[..n] + [specs[n]];
    var d' := Descriptors(d.order + [specs[n].id], d.descs[specs[n].id := DescOf(specs[n], feature, namespace)]);
    forall id | id in d'.descs
      ensures exists i :: 0 <= i < |next| && next[i].id == id
    {
      if id == specs[n].id {
        assert next[n].id == id;
      } else {
        var i :| 0 <= i < |specs[..n]| && specs[..n][i].id == id;
        assert next[i].id == id;
      }
    }
  }

  // ---- Lookups ----

  function Get(d: Descriptors, id: string): Option<Desc> {
    if id in d.descs then Some(d.descs[id]) else None
  }

  /** Sends the descriptors in the order of the specs. */
  method Describe(d: Descriptors, ghost specs: seq<Spec>, ghost feature: string, ghost namespace: string)
    returns (sent: seq<Desc>)
    requires Describes(d, specs, feature, namespace)
    ensures |sent| == |specs|
    ensures forall i :: 0 <= i < |specs| ==> sent[i] == DescOf(specs[i], feature, namespace)
  {
    sent := [];
    for n := 0 to |d.order|
      invariant |sent| == n
      invariant forall i :: 0 <= i < n ==> sent[i] == DescOf(specs[i], feature, namespace)
    {
      assert d.order[n] == specs[n].id && specs[n].id in d.descs;
      sent := sent + [d.descs[d.order[n]]];
    }
  }

  /** The name of the first spec with the ID; an unknown ID is an error. */
  method FeatureMetricName(feature: string, namespace: string, id: string, specs: seq<Spec>)
    returns (name: Option<string>)
    ensures name.None? <==> forall i :: 0 <= i < |specs| ==> specs[i].id != id
    ensures name.Some? ==>
              exists i :: 0 <= i < |specs| && specs[i].id == id
                          && name.value == MetricName(specs[i], feature, namespace)
                          && forall j :: 0 <= j < i ==> specs[j].id != id
  {
    for n := 0 to |specs|
      invariant forall i :: 0 <= i < n ==> specs[i].id != id
    {
      if specs[n].id == id {
        return Some(MetricName(specs[n], feature, namespace));
      }
    }
    return None;
  }

  /** Once loaded, an ID is known exactly when a spec has it, and its descriptor carries that
      spec's name. */
  lemma LoadedNamesAgree(d: Descriptors, specs: seq<Spec>, feature: string, namespace: string, id: string)
    requires ValidIds(specs) && Describes(d, specs, feature, namespace)
    ensures Get(d, id).Some? <==> exists i :: 0 <= i < |specs| && specs[i].id == id
    ensures forall i :: 0 <= i < |specs| && specs[i].id == id ==>
              Get(d, id).value.name == MetricName(specs[i], feature, namespace)
  {
  }

  /** A loaded descriptor has the help and the labels of its spec, and the name that the scope asks
      for: behind the feature's name, behind the namespace, or by itself. */
  lemma LoadedDescriptorsFollowScopes(d: Descriptors, specs: seq<Spec>, feature: string, namespace: string, i: nat)
    requires Describes(d, specs, feature, namespace) && i < |specs|
    ensures specs[i].id in d.descs
    ensures var spec, desc := specs[i], d.descs[specs[i].id];
            && desc.help == spec.help && desc.labels == spec.labels
            && (spec.scope == Feature ==> desc.name == feature + spec.name)
            && (spec.scope == Namespace ==> desc.name == namespace + spec.name)
            && (spec.scope == Absolute || spec.scope == Unset ==> desc.name == spec.name)
  {
  }
}

/** The spec generators for file scrapes, last-known-good data and the cache. */
module GeneratedMetrics {
  import opened Basics
  import opened FeatureMetrics

  datatype Kind =
    | MTimeSeconds | Up | Valid | ReadErrorsTotal | ParseErrorsTotal | ScrapeDurationSeconds
    | LastSuccessTimestampSeconds | ConsecutiveFailures | DataAvailable | DataStale
    | CacheEntries | CacheHits | CacheMisses | CacheSets | CacheDeletes | CacheExpired | CacheClears

  const FILE_KINDS := {MTimeSeconds, Up, Valid, ReadErrorsTotal, ParseErrorsTotal, ScrapeDurationSeconds}
  const GOOD_KINDS := {LastSuccessTimestampSeconds, ConsecutiveFailures, DataAvailable, DataStale}
  const CACHE_KINDS := {CacheEntries, CacheHits, CacheMisses, CacheSets, CacheDeletes, CacheExpired, CacheClears}

  function FileSuffix(kind: Kind): string {
    match kind
    case MTimeSeconds => "_mtime_seconds"
    case Up => "_up"
    case Valid => "_valid"
    case ReadErrorsTotal => "_read_errors_total"
    case ParseErrorsTotal => "_parse_errors_total"
    case _ => "_scrape_duration_seconds"
  }

  function GoodSuffix(kind: Kind): string {
    match kind
    case LastSuccessTimestampSeconds => "_last_success_timestamp_seconds"
    case ConsecutiveFailures => "_consecutive_failures"
    case DataAvailable => "_data_available"
    case _ => "_data_stale"
  }

  function CacheSuffix(kind: Kind): string {
    match kind
    case CacheEntries => "cache_entries"
    case CacheHits => "cache_hits_total"
    case CacheMisses => "cache_misses_total"
    case CacheSets => "cache_sets_total"
    case CacheDeletes => "cache_deletes_total"
    case CacheExpired => "cache_expired_total"
    case _ => "cache_clears_total"
  }

  /** What the ID of a metric adds to its source; the cache metrics have no source. */
  function Suffix(kind: Kind): string {
    if kind in FILE_KINDS then FileSuffix(kind)
    else if kind in GOOD_KINDS then GoodSuffix(kind)
    else CacheSuffix(kind)
  }

  predicate IsSpace(c: char) {
    || '\t' <= c <= '\r' || c == ' ' || c == '\U{0085}' || c == '\U{00A0}' || c == '\U{1680}'
    || '\U{2000}' <= c <= '\U{200A}' || c == '\U{2028}' || c == '\U{2029}' || c == '\U{202F}'
    || c == '\U{205F}' || c == '\U{3000}'
  }

  lemma SpaceIsListed(c: char)
    ensures IsSpace(c) <==>
            c in {'\U{0009}', '\U{000A}', '\U{000B}', '\U{000C}', '\U{000D}', '\U{0020}', '\U{0085}', '\U{00A0}',
                  '\U{1680}', '\U{2000}', '\U{2001}', '\U{2002}', '\U{2003}', '\U{2004}', '\U{2005}', '\U{2006}',
                  '\U{2007}', '\U{2008}', '\U{2009}', '\U{200A}', '\U{2028}', '\U{2029}', '\U{202F}', '\U{205F}',
                  '\U{3000}'}
  {
  }

  predicate Blank(source: string) {
    forall i :: 0 <= i < |source| ==> IsSpace(source[i])
  }

  function FeatureSpec(source: string, kind: Kind, help: string, labels: seq<string>): Spec {
    Spec(source + Suffix(kind), Feature, "_" + source + Suffix(kind), help, labels)
  }

  function FileHelp(source: string, kind: Kind): string {
    match kind
    case MTimeSeconds => "Unix timestamp of the " + source + " source file modification time."
    case Up => "Whether the " + source + " source was readable during the last collection."
    case Valid => "Whether the " + source + " source produced valid data during the last collection."
    case ReadErrorsTotal => "Cumulative total number of " + source + " source read errors."
    case ParseErrorsTotal => "Cumulative total number of " + source + " source parse or validity errors."
    case _ => "Duration in seconds of the last " + source + " source scrape."
  }

  function FileScrapeMetricSpecs(source: string, labels: seq<string>): seq<Spec> {
    [ FeatureSpec(source, MTimeSeconds, FileHelp(source, MTimeSeconds), labels),
      FeatureSpec(source, Up, FileHelp(source, Up), labels),
      FeatureSpec(source, Valid, FileHelp(source, Valid), labels),
      FeatureSpec(source, ReadErrorsTotal, FileHelp(source, ReadErrorsTotal), labels),
      FeatureSpec(source, ParseErrorsTotal, FileHelp(source, ParseErrorsTotal), labels),
      FeatureSpec(source, ScrapeDurationSeconds, FileHelp(source, ScrapeDurationSeconds), labels) ]
  }

  function GoodHelp(source: string, kind: Kind): string {
    match kind
    case LastSuccessTimestampSeconds => "Unix timestamp of the last successful " + source + " refresh."
    case ConsecutiveFailures => "Current number of consecutive failed " + source + " refresh attempts."
    case DataAvailable => "Whether last-known-good " + source + " data is available."
    case _ => "Whether last-known-good " + source + " data is older than its stale threshold."
  }

  function LastKnownGoodMetricSpecs(source: string, labels: seq<string>): seq<Spec> {
    [ FeatureSpec(source, LastSuccessTimestampSeconds, GoodHelp(source, LastSuccessTimestampSeconds), labels),
      FeatureSpec(source, ConsecutiveFailures, GoodHelp(source, ConsecutiveFailures), labels),
      FeatureSpec(source, DataAvailable, GoodHelp(source, DataAvailable), labels),
      FeatureSpec(source, DataStale, GoodHelp(source, DataStale), labels) ]
  }

  function CacheHelp(kind: Kind): string {
    match kind
    case CacheEntries => "Current number of live entries in the feature cache."
    case CacheHits => "Cumulative total number of feature cache hits."
    case CacheMisses => "Cumulative total number of feature cache misses."
    case CacheSets => "Cumulative total number of feature cache set operations."
    case CacheDeletes => "Cumulative total number of feature cache entries deleted explicitly."
    case CacheExpired => "Cumulative total number of feature cache entries removed after expiry."
    case _ => "Cumulative total number of feature cache clear operations."
  }

  function CacheSpec(kind: Kind, labels: seq<string>): Spec {
    Spec(Suffix(kind), Feature, "_" + Suffix(kind), CacheHelp(kind), ["cache"] + labels)
  }

  function TTLCacheMetricSpecs(labels: seq<string>): seq<Spec> {
    [ CacheSpec(CacheEntries, labels), CacheSpec(CacheHits, labels), CacheSpec(CacheMisses, labels),
      CacheSpec(CacheSets, labels), CacheSpec(CacheDeletes, labels), CacheSpec(CacheExpired, labels),
      CacheSpec(CacheClears, labels) ]
  }

  /** The specs a source has, spelled out. */
  lemma FileSpecsSpelledOut(source: string, labels: seq<string>)
    ensures FileScrapeMetricSpecs(source, labels) ==
            [Spec(source + "_mtime_seconds", Feature, "_" + source + "_mtime_seconds",
                  "Unix timestamp of the " + source + " source file modification time.", labels),
             Spec(source + "_up", Feature, "_" + source + "_up",
                  "Whether the " + source + " source was readable during the last collection.", labels),
             Spec(source + "_valid", Feature, "_" + source + "_valid",
                  "Whether the " + source + " source produced valid data during the last collection.", labels),
             Spec(source + "_read_errors_total", Feature, "_" + source + "_read_errors_total",
                  "Cumulative total number of " + source + " source read errors.", labels),
             Spec(source + "_parse_errors_total", Feature, "_" + source + "_parse_errors_total",
                  "Cumulative total number of " + source + " source parse or validity errors.", labels),
             Spec(source + "_scrape_duration_seconds", Feature, "_" + source + "_scrape_duration_seconds",
                  "Duration in seconds of the last " + source + " source scrape.", labels)]
  {
    assert Suffix(MTimeSeconds) == "_mtime_seconds" && Suffix(Up) == "_up" && Suffix(Valid) == "_valid";
    assert Suffix(ReadErrorsTotal) == "_read_errors_total" && Suffix(ParseErrorsTotal) == "_parse_errors_total";
    assert Suffix(ScrapeDurationSeconds) == "_scrape_duration_seconds";
  }

  lemma GoodSpecsSpelledOut(source: string, labels: seq<string>)
    ensures LastKnownGoodMetricSpecs(source, labels) ==
            [Spec(source + "_last_success_timestamp_seconds", Feature, "_" + source + "_last_success_timestamp_seconds",
                  "Unix timestamp of the last successful " + source + " refresh.", labels),
             Spec(source + "_consecutive_failures", Feature, "_" + source + "_consecutive_failures",
                  "Current number of consecutive failed " + source + " refresh attempts.", labels),
             Spec(source + "_data_available", Feature, "_" + source + "_data_available",
                  "Whether last-known-good " + source + " data is available.", labels),
             Spec(source + "_data_stale", Feature, "_" + source + "_data_stale",
                  "Whether last-known-good " + source + " data is older than its stale threshold.", labels)]
  {
  }

  /** The seven specs of the cache, in three groups. */
  lemma CacheSpecsSpelledOut(labels: seq<string>)
    ensures [CacheSpec(CacheEntries, labels), CacheSpec(CacheHits, labels), CacheSpec(CacheMisses, labels)] ==
            [Spec("cache_entries", Feature, "_" + "cache_entries",
                  "Current number of live entries in the feature cache.", ["cache"] + labels),
             Spec("cache_hits_total", Feature, "_" + "cache_hits_total",
                  "Cumulative total number of feature cache hits.", ["cache"] + labels),
             Spec("cache_misses_total", Feature, "_" + "cache_misses_total",
                  "Cumulative total number of feature cache misses.", ["cache"] + labels)]
  {
  }

  lemma WriteSpecsSpelledOut(labels: seq<string>)
    ensures [CacheSpec(CacheSets, labels), CacheSpec(CacheDeletes, labels)] ==
            [Spec("cache_sets_total", Feature, "_" + "cache_sets_total",
                  "Cumulative total number of feature cache set operations.", ["cache"] + labels),
             Spec("cache_deletes_total", Feature, "_" + "cache_deletes_total",
                  "Cumulative total number of feature cache entries deleted explicitly.", ["cache"] + labels)]
  {
  }

  lemma RemovalSpecsSpelledOut(labels: seq<string>)
    ensures [CacheSpec(CacheExpired, labels), CacheSpec(CacheClears, labels)] ==
            [Spec("cache_expired_total", Feature, "_" + "cache_expired_total",
                  "Cumulative total number of feature cache entries removed after expiry.", ["cache"] + labels),
             Spec("cache_clears_total", Feature, "_" + "cache_clears_total",
                  "Cumulative total number of feature cache clear operations.", ["cache"] + labels)]
  {
  }

  lemma CacheSpecOrder(labels: seq<string>)
    ensures TTLCacheMetricSpecs(labels) ==
            [CacheSpec(CacheEntries, labels), CacheSpec(CacheHits, labels), CacheSpec(CacheMisses, labels)]
            + [CacheSpec(CacheSets, labels), CacheSpec(CacheDeletes, labels)]
            + [CacheSpec(CacheExpired, labels), CacheSpec(CacheClears, labels)]
  {
  }

  /** The labels given in each generator call: those for each place in the lists of sources. */
  datatype Labels = Labels(file: nat -> seq<string>, good: nat -> seq<string>, cache: seq<string>)

  function AllSpecs(files: seq<string>, goods: seq<string>, labels: Labels): seq<Spec> {
    FileSpecs(files, labels.file) + GoodSpecs(goods, labels.good) + TTLCacheMetricSpecs(labels.cache)
  }

  /** All specs of a feature with these sources; a blank source makes its generator panic. */
  function Generated(files: seq<string>, goods: seq<string>, labels: Labels): Option<seq<Spec>> {
    if (exists i :: 0 <= i < |files| && Blank(files[i])) || (exists i :: 0 <= i < |goods| && Blank(goods[i])) then None
    else Some(AllSpecs(files, goods, labels))
  }

  function FileSpecs(files: seq<string>, labels: nat -> seq<string>): seq<Spec> {
    if files == [] then []
    else FileSpecs(files[..|files| - 1], labels) + FileScrapeMetricSpecs(files[|files| - 1], labels(|files| - 1))
  }

  function GoodSpecs(goods: seq<string>, labels: nat -> seq<string>): seq<Spec> {
    if goods == [] then []
    else GoodSpecs(goods[..|goods| - 1], labels) + LastKnownGoodMetricSpecs(goods[|goods| - 1], labels(|goods| - 1))
  }

  // ---- An ID determines its source and its kind ----

  /** The character `k` places before the end. */
  function FromEnd(s: string, k: nat): char {
    if k < |s| then s[|s| - 1 - k] else '\0'
  }

  /** The kind of an ID, read off its end. */
  function KindOf(id: string): Kind {
    if FromEnd(id, 0) == 'p' then Up
    else if FromEnd(id, 0) == 'd' then Valid
    else if FromEnd(id, 0) == 'e' then
      if FromEnd(id, 1) == 'l' && FromEnd(id, 2) == 'b' then DataAvailable else DataStale
    else if FromEnd(id, 0) == 'l' then
      if FromEnd(id, 6) == 'd' then CacheExpired
      else if FromEnd(id, 7) == 't' then (if FromEnd(id, 8) == 'i' then CacheHits else CacheSets)
      else if FromEnd(id, 7) == 'r' then
        (if FromEnd(id, 8) == 'a' then CacheClears
         else if FromEnd(id, 13) == 'd' then ReadErrorsTotal else ParseErrorsTotal)
      else if FromEnd(id, 8) == 's' then CacheMisses else CacheDeletes
    else if FromEnd(id, 1) == 'd' then
      if FromEnd(id, 8) == 'e' then MTimeSeconds
      else if FromEnd(id, 8) == 'n' then ScrapeDurationSeconds
      else LastSuccessTimestampSeconds
    else if FromEnd(id, 2) == 'r' then ConsecutiveFailures
    else CacheEntries
  }

  /** Looking from the end, a suffix hides what precedes it. */
  lemma EndsAlike(source: string, suffix: string, k: nat)
    requires k < |suffix|
    ensures FromEnd(source + suffix, k) == suffix[|suffix| - 1 - k]
  {
  }

  /** The places that `KindOf` looks at, as far as the suffix reaches. */
  lemma EndOfId(source: string, suffix: string)
    requires |suffix| > 2
    ensures forall k :: k in {0, 1, 2, 6, 7, 8, 13} && k < |suffix| ==>
              FromEnd(source + suffix, k) == suffix[|suffix| - 1 - k]
  {
    forall k | k in {0, 1, 2, 6, 7, 8, 13} && k < |suffix|
      ensures FromEnd(source + suffix, k) == suffix[|suffix| - 1 - k]
    {
      EndsAlike(source, suffix, k);
    }
  }

  lemma KindOfFileId(source: string, kind: Kind)
    requires kind in FILE_KINDS
    ensures KindOf(source + Suffix(kind)) == kind
  {
    hide GoodSuffix, CacheSuffix, FromEnd;
    EndOfId(source, Suffix(kind));
  }

  lemma KindOfGoodId(source: string, kind: Kind)
    requires kind in GOOD_KINDS
    ensures KindOf(source + Suffix(kind)) == kind
  {
    hide FileSuffix, CacheSuffix, FromEnd;
    EndOfId(source, Suffix(kind));
  }

  lemma KindOfCacheId(source: string, kind: Kind)
    requires kind in CACHE_KINDS
    ensures KindOf(source + Suffix(kind)) == kind
  {
    hide FileSuffix, GoodSuffix, FromEnd;
    EndOfId(source, Suffix(kind));
  }

  /** No suffix can be mistaken for another, whatever precedes it. */
  lemma KindOfId(source: string, kind: Kind)
    ensures KindOf(source + Suffix(kind)) == kind
  {
    hide KindOf, Suffix;
    if kind in FILE_KINDS {
      KindOfFileId(source, kind);
    } else if kind in GOOD_KINDS {
      KindOfGoodId(source, kind);
    } else {
      KindOfCacheId(source, kind);
    }
  }

  lemma IdsAreInjective(source: string, kind: Kind, source': string, kind': Kind)
    requires source + Suffix(kind) == source' + Suffix(kind')
    ensures source == source' && kind == kind'
  {
    KindOfId(source, kind);
    KindOfId(source', kind');
    assert source == (source + Suffix(kind))[..|source|];
    assert source' == (source' + Suffix(kind'))[..|source'|];
  }

  // ---- Lists of specs ----

  /** Where a spec comes from; cache specs have the empty source. */
  datatype Origin = Origin(source: string, kind: Kind)

  ghost predicate ComesFrom(spec: Spec, o: Origin) {
    && spec.id == o.source + Suffix(o.kind)
    && spec.scope == Feature
    && spec.name == "_" + spec.id
  }

  ghost predicate AllComeFrom(specs: seq<Spec>, os: seq<Origin>) {
    |specs| == |os| && forall i :: 0 <= i < |specs| ==> ComesFrom(specs[i], os[i])
  }

  ghost function OriginsOf(source: string, kinds: seq<Kind>): (os: seq<Origin>)
    ensures |os| == |kinds| && forall i :: 0 <= i < |os| ==> os[i] == Origin(source, kinds[i])
  {
    seq(|kinds|, i requires 0 <= i < |kinds| => Origin(source, kinds[i]))
  }

  ghost function Origins(sources: seq<string>, kinds: seq<Kind>): seq<Origin> {
    if sources == [] then []
    else Origins(sources[..|sources| - 1], kinds) + OriginsOf(sources[|sources| - 1], kinds)
  }

  const FILE_ORDER := [MTimeSeconds, Up, Valid, ReadErrorsTotal, ParseErrorsTotal, ScrapeDurationSeconds]
  const GOOD_ORDER := [LastSuccessTimestampSeconds, ConsecutiveFailures, DataAvailable, DataStale]
  const CACHE_ORDER := [CacheEntries, CacheHits, CacheMisses, CacheSets, CacheDeletes, CacheExpired, CacheClears]

  ghost function AllOrigins(files: seq<string>, goods: seq<string>): seq<Origin> {
    Origins(files, FILE_ORDER) + Origins(goods, GOOD_ORDER) + OriginsOf("", CACHE_ORDER)
  }

  lemma FeatureSpecComes(source: string, kind: Kind, help: string, labels: seq<string>)
    ensures ComesFrom(FeatureSpec(source, kind, help, labels), Origin(source, kind))
  {
    hide Suffix;
    assert "_" + source + Suffix(kind) == "_" + (source + Suffix(kind));
  }

  lemma CacheSpecComes(kind: Kind, labels: seq<string>)
    ensures ComesFrom(CacheSpec(kind, labels), Origin("", kind))
  {
    hide Suffix, CacheHelp;
    assert "" + Suffix(kind) == Suffix(kind);
  }

  lemma OneFileComes(source: string, labels: seq<string>)
    ensures AllComeFrom(FileScrapeMetricSpecs(source, labels), OriginsOf(source, FILE_ORDER))
  {
    hide ComesFrom, FeatureSpec, FileHelp;
    forall kind: Kind, help: string
      ensures ComesFrom(FeatureSpec(source, kind, help, labels), Origin(source, kind))
    {
      FeatureSpecComes(source, kind, help, labels);
    }
  }

  lemma OneGoodComes(source: string, labels: seq<string>)
    ensures AllComeFrom(LastKnownGoodMetricSpecs(source, labels), OriginsOf(source, GOOD_ORDER))
  {
    hide ComesFrom, FeatureSpec, GoodHelp;
    forall kind: Kind, help: string
      ensures ComesFrom(FeatureSpec(source, kind, help, labels), Origin(source, kind))
    {
      FeatureSpecComes(source, kind, help, labels);
    }
  }

  lemma CacheComes(labels: seq<string>)
    ensures AllComeFrom(TTLCacheMetricSpecs(labels), OriginsOf("", CACHE_ORDER))
  {
    hide ComesFrom, CacheSpec;
    forall kind: Kind
      ensures ComesFrom(CacheSpec(kind, labels), Origin("", kind))
    {
      CacheSpecComes(kind, labels);
    }
  }

  lemma AllComeConcat(a: seq<Spec>, b: seq<Spec>, x: seq<Origin>, y: seq<Origin>)
    requires AllComeFrom(a, x) && AllComeFrom(b, y)
    ensures AllComeFrom(a + b, x + y)
  {
    hide ComesFrom;
  }

  lemma {:induction false} FilesCome(files: seq<string>, labels: nat -> seq<string>)
    ensures AllComeFrom(FileSpecs(files, labels), Origins(files, FILE_ORDER))
  {
    if files != [] {
      var last := |files| - 1;
      hide AllComeFrom, FileScrapeMetricSpecs;
      FilesCome(files[..last], labels);
      OneFileComes(files[last], labels(last));
      AllComeConcat(FileSpecs(files[..last], labels), FileScrapeMetricSpecs(files[last], labels(last)),
                    Origins(files[..last], FILE_ORDER), OriginsOf(files[last], FILE_ORDER));
    }
  }

  lemma {:induction false} GoodsCome(goods: seq<string>, labels: nat -> seq<string>)
    ensures AllComeFrom(GoodSpecs(goods, labels), Origins(goods, GOOD_ORDER))
  {
    if goods != [] {
      var last := |goods| - 1;
      hide AllComeFrom, LastKnownGoodMetricSpecs;
      GoodsCome(goods[..last], labels);
      OneGoodComes(goods[last], labels(last));
      AllComeConcat(GoodSpecs(goods[..last], labels), LastKnownGoodMetricSpecs(goods[last], labels(last)),
                    Origins(goods[..last], GOOD_ORDER), OriginsOf(goods[last], GOOD_ORDER));
    }
  }

  lemma GeneratedCome(files: seq<string>, goods: seq<string>, labels: Labels)
    ensures AllComeFrom(AllSpecs(files, goods, labels), AllOrigins(files, goods))
  {
    hide AllComeFrom, TTLCacheMetricSpecs, FileSpecs, GoodSpecs;
    var f, g, c := FileSpecs(files, labels.file), GoodSpecs(goods, labels.good), TTLCacheMetricSpecs(labels.cache);
    FilesCome(files, labels.file);
    GoodsCome(goods, labels.good);
    CacheComes(labels.cache);
    AllComeConcat(f, g, Origins(files, FILE_ORDER), Origins(goods, GOOD_ORDER));
    AllComeConcat(f + g, c, Origins(files, FILE_ORDER) + Origins(goods, GOOD_ORDER), OriginsOf("", CACHE_ORDER));
  }

  // ---- Distinctness ----

  lemma DistinctConcat<T>(a: seq<T>, b: seq<T>)
    ensures Distinct(a + b) <==> Distinct(a) && Distinct(b) && forall x :: !(x in a && x in b)
  {
    var c := a + b;
    assert forall i :: 0 <= i < |a| ==> c[i] == a[i] && c[i] in a;
    assert forall i :: 0 <= i < |b| ==> c[|a| + i] == b[i];
    assert forall i :: |a| <= i < |c| ==> c[i] == b[i - |a|] && c[i] in b;
    if Distinct(c) {
      DistinctParts(a, b);
    }
  }

  lemma DistinctParts<T>(a: seq<T>, b: seq<T>)
    requires Distinct(a + b)
    ensures Distinct(a) && Distinct(b) && forall x :: !(x in a && x in b)
  {
    var c := a + b;
    assert forall i :: 0 <= i < |a| ==> a[i] == c[i];
    assert forall i :: 0 <= i < |b| ==> b[i] == c[|a| + i];
    forall i, j | 0 <= i < |a| && 0 <= j < |b|
      ensures a[i] != b[j]
    {
      assert c[i] != c[|a| + j];
    }
  }

  lemma OriginsOfMembers(source: string, kinds: seq<Kind>, o: Origin)
    ensures o in OriginsOf(source, kinds) <==> o.source == source && o.kind in kinds
  {
    if o.source == source && o.kind in kinds {
      var i :| 0 <= i < |kinds| && kinds[i] == o.kind;
      assert OriginsOf(source, kinds)[i] == o;
    }
  }

  lemma {:induction false} OriginsMembers(sources: seq<string>, kinds: seq<Kind>, o: Origin)
    ensures o in Origins(sources, kinds) <==> o.source in sources && o.kind in kinds
  {
    if sources != [] {
      var last := |sources| - 1;
      assert sources == sources[..last] + [sources[last]];
      OriginsMembers(sources[..last], kinds, o);
      OriginsOfMembers(sources[last], kinds, o);
    }
  }

  lemma OriginsOfDistinct(source: string, kinds: seq<Kind>)
    requires Distinct(kinds)
    ensures Distinct(OriginsOf(source, kinds))
  {
  }

  /** Sources without repetition give origins without repetition, and only those do. */
  lemma {:induction false} OriginsDistinct(sources: seq<string>, kinds: seq<Kind>)
    requires Distinct(kinds) && kinds != []
    ensures Distinct(Origins(sources, kinds)) <==> Distinct(sources)
  {
    if sources != [] {
      var last := |sources| - 1;
      var before, source := sources[..last], sources[last];
      assert sources == before + [source];
      OriginsDistinct(before, kinds);
      OriginsOfDistinct(source, kinds);
      DistinctConcat(Origins(before, kinds), OriginsOf(source, kinds));
      DistinctConcat(before, [source]);
      assert Distinct([source]);
      forall o: Origin
        ensures o in Origins(before, kinds) && o in OriginsOf(source, kinds) <==>
                source in before && o.source == source && o.kind in kinds
      {
        OriginsMembers(before, kinds, o);
        OriginsOfMembers(source, kinds, o);
      }
      hide Distinct, Origins, OriginsOf;
      if source in before {
        var o := Origin(source, kinds[0]);
        assert o in Origins(before, kinds) && o in OriginsOf(source, kinds);
      }
    }
  }

  lemma OrdersAreDistinct()
    ensures Distinct(FILE_ORDER) && Distinct(GOOD_ORDER) && Distinct(CACHE_ORDER)
    ensures forall k :: !(k in FILE_ORDER && k in GOOD_ORDER) && !(k in FILE_ORDER && k in CACHE_ORDER)
                        && !(k in GOOD_ORDER && k in CACHE_ORDER)
  {
  }

  lemma AllOriginsDistinct(files: seq<string>, goods: seq<string>)
    ensures Distinct(AllOrigins(files, goods)) <==> Distinct(files) && Distinct(goods)
  {
    OrdersAreDistinct();
    var f, g, c := Origins(files, FILE_ORDER), Origins(goods, GOOD_ORDER), OriginsOf("", CACHE_ORDER);
    OriginsDistinct(files, FILE_ORDER);
    OriginsDistinct(goods, GOOD_ORDER);
    OriginsOfDistinct("", CACHE_ORDER);
    forall o: Origin
      ensures o in f ==> o.kind in FILE_ORDER
      ensures o in g ==> o.kind in GOOD_ORDER
      ensures o in c ==> o.kind in CACHE_ORDER
    {
      OriginsMembers(files, FILE_ORDER, o);
      OriginsMembers(goods, GOOD_ORDER, o);
      OriginsOfMembers("", CACHE_ORDER, o);
    }
    hide Distinct, Origins, OriginsOf;
    DistinctConcat(f + g, c);
    DistinctConcat(f, g);
  }

  // ---- Loading what was generated ----

  /** Specs with distinct origins have distinct IDs and names, and only those do. */
  lemma LoadableIffOriginsDistinct(specs: seq<Spec>, os: seq<Origin>, feature: string, namespace: string)
    requires AllComeFrom(specs, os)
    requires forall i :: 0 <= i < |os| ==> os[i].source + Suffix(os[i].kind) != ""
    ensures Loadable(specs, feature, namespace) <==> Distinct(os)
  {
    forall i, j | 0 <= i < j < |specs|
      ensures specs[i].id == specs[j].id <==> os[i] == os[j]
      ensures MetricName(specs[i], feature, namespace) == MetricName(specs[j], feature, namespace) <==>
              specs[i].id == specs[j].id
    {
      NamesFollowIds(specs[i], specs[j], os[i], os[j], feature, namespace);
    }
    forall i | 0 <= i < |specs|
      ensures specs[i].id != "" && MetricName(specs[i], feature, namespace) != ""
    {
      assert ComesFrom(specs[i], os[i]);
    }
    hide Suffix, MetricName, ComesFrom;
  }

  lemma NamesFollowIds(a: Spec, b: Spec, x: Origin, y: Origin, feature: string, namespace: string)
    requires ComesFrom(a, x) && ComesFrom(b, y)
    ensures a.id == b.id <==> x == y
    ensures MetricName(a, feature, namespace) == MetricName(b, feature, namespace) <==> a.id == b.id
  {
    hide Suffix;
    if a.id == b.id { IdsAreInjective(x.source, x.kind, y.source, y.kind); }
    NameEndsInId(feature, a.id);
    NameEndsInId(feature, b.id);
  }

  lemma NameEndsInId(feature: string, id: string)
    ensures (feature + ("_" + id))[|feature| + 1..] == id
  {
  }

  lemma SuffixIsSome(source: string, kind: Kind)
    ensures source + Suffix(kind) != ""
  {
    SuffixNotEmpty(kind);
    hide Suffix;
  }

  lemma SuffixNotEmpty(kind: Kind)
    ensures |Suffix(kind)| > 0
  {
  }

  lemma OriginsHaveIds(os: seq<Origin>)
    ensures forall i :: 0 <= i < |os| ==> os[i].source + Suffix(os[i].kind) != ""
  {
    hide Suffix;
    forall i | 0 <= i < |os|
      ensures os[i].source + Suffix(os[i].kind) != ""
    {
      SuffixIsSome(os[i].source, os[i].kind);
    }
  }

  lemma ConcatenatedSpecsLoad(files: seq<string>, goods: seq<string>, labels: Labels, feature: string,
                              namespace: string)
    ensures Loadable(AllSpecs(files, goods, labels), feature, namespace) <==> Distinct(files) && Distinct(goods)
  {
    hide Loadable, Distinct, AllComeFrom, AllOrigins, AllSpecs, Suffix;
    GeneratedCome(files, goods, labels);
    AllOriginsDistinct(files, goods);
    OriginsHaveIds(AllOrigins(files, goods));
    LoadableIffOriginsDistinct(AllSpecs(files, goods, labels), AllOrigins(files, goods), feature, namespace);
  }

  /** The generated specs load exactly when no source is blank and none is repeated in its list,
      whatever the feature is called, whatever labels each call gives, and even when a file and a
      dataset share a source. */
  lemma GeneratedSpecsLoad(files: seq<string>, goods: seq<string>, labels: Labels, feature: string, namespace: string)
    ensures var specs := Generated(files, goods, labels);
            (specs.Some? && Loadable(specs.value, feature, namespace)) <==>
            && Distinct(files) && Distinct(goods)
            && (forall i :: 0 <= i < |files| ==> !Blank(files[i]))
            && (forall i :: 0 <= i < |goods| ==> !Blank(goods[i]))
  {
    hide Loadable, Distinct, AllSpecs, Blank;
    ConcatenatedSpecsLoad(files, goods, labels, feature, namespace);
  }

  lemma OriginIsListed(files: seq<string>, goods: seq<string>, o: Origin)
    ensures o in AllOrigins(files, goods) <==>
            || (o.source in files && o.kind in FILE_ORDER) || (o.source in goods && o.kind in GOOD_ORDER)
            || (o.source == "" && o.kind in CACHE_ORDER)
  {
    OriginsMembers(files, FILE_ORDER, o);
    OriginsMembers(goods, GOOD_ORDER, o);
    OriginsOfMembers("", CACHE_ORDER, o);
    hide Origins, OriginsOf;
  }

  lemma OriginIsFound(specs: seq<Spec>, os: seq<Origin>, feature: string, namespace: string, d: Descriptors, o: Origin)
    requires AllComeFrom(specs, os) && Describes(d, specs, feature, namespace) && o in os
    ensures Get(d, o.source + Suffix(o.kind)).Some?
    ensures Get(d, o.source + Suffix(o.kind)).value.name == feature + "_" + o.source + Suffix(o.kind)
  {
    hide Suffix;
    var i :| 0 <= i < |os| && os[i] == o;
    assert ComesFrom(specs[i], o);
    assert feature + ("_" + (o.source + Suffix(o.kind))) == feature + "_" + o.source + Suffix(o.kind);
  }

  /** After loading, every metric of every source is found under its ID, with its full name. */
  lemma EverySourceIsFound(files: seq<string>, goods: seq<string>, labels: Labels, feature: string,
                           namespace: string, d: Descriptors, o: Origin)
    requires Generated(files, goods, labels).Some?
    requires Describes(d, Generated(files, goods, labels).value, feature, namespace)
    requires (o.source in files && o.kind in FILE_ORDER) || (o.source in goods && o.kind in GOOD_ORDER)
             || (o.source == "" && o.kind in CACHE_ORDER)
    ensures Get(d, o.source + Suffix(o.kind)).Some?
    ensures Get(d, o.source + Suffix(o.kind)).value.name == feature + "_" + o.source + Suffix(o.kind)
  {
    hide Suffix, AllSpecs, Blank, Get, AllOrigins, AllComeFrom, Describes;
    GeneratedCome(files, goods, labels);
    OriginIsListed(files, goods, o);
    OriginIsFound(Generated(files, goods, labels).value, AllOrigins(files, goods), feature, namespace, d, o);
  }
}
