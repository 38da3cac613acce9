// The backend's monitoring helpers: a performance monitor keeping a bounded
// buffer of request metrics and per-endpoint statistics, a health checker
// folding its checks' outcomes into one status, and a metrics collector of
// counters, gauges and bounded histograms under keys built from a name and
// tags. Durations and histogram values are whole numbers here.

module Monitoring {
  import opened Wrappers
  import opened Text
  import Ordering
  import Arith

  // ---------------------------------------------------------------- buffers

  /** The last m elements of s, or all of them when there are at most m. */
  function Newest<T>(s: seq<T>, m: nat): (r: seq<T>)
    ensures |r| <= m && |r| <= |s|
    ensures |s| <= m ==> r == s
  {
    if |s| <= m then s else s[|s| - m..]
  }

  /** Appending to a bounded buffer keeps the newest m of everything ever appended. */
  lemma NewestSnoc<T>(s: seq<T>, x: T, m: nat)
    ensures Newest(Newest(s, m) + [x], m) == Newest(s + [x], m)
  {
    if |s| > m {
      var t := s[|s| - m..];
      var a, b := (t + [x])[1..], (s + [x])[|s| + 1 - m..];
      assert |a| == |b| == m;
      forall k | 0 <= k < m ensures a[k] == b[k] {
        if k < m - 1 {
          assert a[k] == t[k + 1] == s[|s| - m + k + 1];
        }
      }
      assert Newest(t + [x], m) == a;
    }
  }

  /** Every element of the bounded buffer is one of the newest and keeps its order. */
  lemma NewestIsSuffix<T>(s: seq<T>, m: nat)
    ensures var r := Newest(s, m); forall i :: 0 <= i < |r| ==> r[i] == s[|s| - |r| + i]
  {
  }

  // ---------------------------------------------------------------- performance monitor

  datatype Metric = Metric(endpoint: string, verb: string, duration: nat, statusCode: int, error: Option<string>)

  /** A metric counts as an error when its error text is present and not empty. */
  predicate HasError(m: Metric)
  {
    m.error.Some? && m.error.value != ""
  }

  /** The statistics key: method, a space, then endpoint. */
  function EndpointKey(m: Metric): string
  {
    m.verb + " " + m.endpoint
  }

  /** One endpoint's statistics; `None` stands for the initial infinite minimum. */
  datatype Stats = Stats(count: nat, totalDuration: nat, minDuration: Option<nat>, maxDuration: nat, errorCount: nat)

  const NO_STATS := Stats(0, 0, None, 0, 0)

  /** `record_metric`'s update of one entry. */
  function Record(s: Stats, m: Metric): Stats
  {
    Stats(s.count + 1,
          s.totalDuration + m.duration,
          Some(if s.minDuration.Some? && s.minDuration.value < m.duration then s.minDuration.value else m.duration),
          if s.maxDuration > m.duration then s.maxDuration else m.duration,
          if HasError(m) then s.errorCount + 1 else s.errorCount)
  }

  function SumDurations(ms: seq<Metric>): nat
  {
    if ms == [] then 0 else SumDurations(ms[..|ms| - 1]) + ms[|ms| - 1].duration
  }

  function ErrorCount(ms: seq<Metric>): nat
  {
    if ms == [] then 0 else ErrorCount(ms[..|ms| - 1]) + (if HasError(ms[|ms| - 1]) then 1 else 0)
  }

  /** The least duration of a non-empty list, as a member of the list. */
  function MinDuration(ms: seq<Metric>): (r: nat)
    requires ms != []
    ensures exists i :: 0 <= i < |ms| && ms[i].duration == r
    ensures forall i :: 0 <= i < |ms| ==> r <= ms[i].duration
  {
    if |ms| == 1 then ms[0].duration
    else
      var r := MinDuration(ms[..|ms| - 1]);
      assert forall i :: 0 <= i < |ms| - 1 ==> ms[..|ms| - 1][i] == ms[i];
      if r < ms[|ms| - 1].duration then r else ms[|ms| - 1].duration
  }

  /** The greatest duration of a list, 0 for the empty list. */
  function MaxDuration(ms: seq<Metric>): (r: nat)
    ensures ms != [] ==> exists i :: 0 <= i < |ms| && ms[i].duration == r
    ensures forall i :: 0 <= i < |ms| ==> ms[i].duration <= r
  {
    if ms == [] then 0
    else
      var r := MaxDuration(ms[..|ms| - 1]);
      assert forall i :: 0 <= i < |ms| - 1 ==> ms[..|ms| - 1][i] == ms[i];
      if r > ms[|ms| - 1].duration then r else ms[|ms| - 1].duration
  }

  /** The statistics an endpoint should show for the metrics recorded under it. */
  function Aggregate(ms: seq<Metric>): Stats
  {
    Stats(|ms|, SumDurations(ms), if ms == [] then None else Some(MinDuration(ms)), MaxDuration(ms), ErrorCount(ms))
  }

  /** The metrics recorded under one key, in order. */
  function WithKey(ms: seq<Metric>, key: string): (r: seq<Metric>)
    ensures forall i :: 0 <= i < |r| ==> EndpointKey(r[i]) == key
  {
    if ms == [] then []
    else WithKey(ms[..|ms| - 1], key) + (if EndpointKey(ms[|ms| - 1]) == key then [ms[|ms| - 1]] else [])
  }

  /** Updating statistics with one metric gives the statistics of the longer history. */
  lemma RecordAggregate(ms: seq<Metric>, m: Metric)
    ensures Record(Aggregate(ms), m) == Aggregate(ms + [m])
  {
    var ms' := ms + [m];
    assert ms'[..|ms'| - 1] == ms;
    if ms != [] {
      var lo := MinDuration(ms');
      assert lo == (if MinDuration(ms) < m.duration then MinDuration(ms) else m.duration);
    }
  }

  lemma WithKeySnoc(ms: seq<Metric>, m: Metric, key: string)
    ensures WithKey(ms + [m], key) == WithKey(ms, key) + (if EndpointKey(m) == key then [m] else [])
  {
    assert (ms + [m])[..|ms + [m]| - 1] == ms;
  }

  /** The errors are among the requests, and the minimum never exceeds the maximum. */
  predicate Consistent(s: Stats)
  {
    && s.errorCount <= s.count
    && (s.count == 0 <==> s.minDuration.None?)
    && (s.minDuration.Some? ==> s.minDuration.value <= s.maxDuration)
  }

  lemma {:induction false} ErrorCountBound(ms: seq<Metric>)
    ensures ErrorCount(ms) <= |ms|
  {
    if ms != [] {
      ErrorCountBound(ms[..|ms| - 1]);
    }
  }

  lemma AggregateConsistent(ms: seq<Metric>)
    ensures Consistent(Aggregate(ms))
  {
    ErrorCountBound(ms);
    if ms != [] {
      assert MinDuration(ms) <= ms[0].duration <= MaxDuration(ms);
    }
  }

  /** `endpoint_stats[key]`, which creates the initial entry when the key is new. */
  function StatsAt(stats: map<string, Stats>, key: string): Stats
  {
    if key in stats then stats[key] else NO_STATS
  }

  /** The entries are exactly the keys seen, each holding the statistics of its metrics. */
  ghost predicate StatsOfHistory(stats: map<string, Stats>, recorded: seq<Metric>)
  {
    && (forall key :: key in stats <==> WithKey(recorded, key) != [])
    && (forall key :: key in stats ==> stats[key] == Aggregate(WithKey(recorded, key)))
  }

  /** One more recorded metric keeps the statistics those of the whole history. */
  lemma RecordKeepsHistory(stats: map<string, Stats>, recorded: seq<Metric>, m: Metric)
    requires StatsOfHistory(stats, recorded)
    ensures var key := EndpointKey(m);
      StatsOfHistory(stats[key := Record(StatsAt(stats, key), m)], recorded + [m])
  {
    var key := EndpointKey(m);
    var stats' := stats[key := Record(StatsAt(stats, key), m)];
    var recorded' := recorded + [m];
    forall k ensures k in stats' <==> WithKey(recorded', k) != [] {
      WithKeySnoc(recorded, m, k);
    }
    forall k | k in stats' ensures stats'[k] == Aggregate(WithKey(recorded', k)) {
      if k == key {
        WithKeySnoc(recorded, m, k);
        RecordAggregate(WithKey(recorded, key), m);
        assert StatsAt(stats, key) == Aggregate(WithKey(recorded, key));
      } else {
        OtherKeyUnchanged(recorded, m, k);
        assert stats'[k] == stats[k];
      }
    }
  }

  lemma OtherKeyUnchanged(recorded: seq<Metric>, m: Metric, k: string)
    requires EndpointKey(m) != k
    ensures WithKey(recorded + [m], k) == WithKey(recorded, k)
  {
    WithKeySnoc(recorded, m, k);
  }

  /** Statistics kept this way are always consistent. */
  lemma HistoryConsistent(stats: map<string, Stats>, recorded: seq<Metric>)
    requires StatsOfHistory(stats, recorded)
    ensures forall key :: key in stats ==> Consistent(stats[key])
  {
    forall k | k in stats ensures Consistent(stats[k]) {
      AggregateConsistent(WithKey(recorded, k));
    }
  }

  class PerformanceMonitor {
    const maxMetrics: nat
    var metrics: seq<Metric>
    var endpointStats: map<string, Stats>
    /** Every metric recorded so far, oldest first. */
    ghost var recorded: seq<Metric>

    /**
     * The buffer holds the newest `maxMetrics` metrics, and each endpoint's
     * statistics are those of every metric ever recorded under its key.
     */
    ghost predicate Valid()
      reads this
    {
      metrics == Newest(recorded, maxMetrics) && StatsOfHistory(endpointStats, recorded)
    }

    constructor(maxMetrics: nat)
      ensures Valid() && this.maxMetrics == maxMetrics && metrics == [] && endpointStats == map[]
    {
      this.maxMetrics := maxMetrics;
      metrics := [];
      endpointStats := map[];
      recorded := [];
    }

    /** Appends to the bounded buffer and updates the metric's endpoint entry. */
    method RecordMetric(m: Metric)
      modifies this
      requires Valid()
      ensures Valid() && recorded == old(recorded) + [m]
      ensures metrics == Newest(old(metrics) + [m], maxMetrics) && |metrics| <= maxMetrics
      ensures endpointStats == old(endpointStats)[EndpointKey(m) := Record(StatsAt(old(endpointStats), EndpointKey(m)), m)]
      ensures forall key :: key in endpointStats ==> Consistent(endpointStats[key])
    {
      NewestSnoc(recorded, m, maxMetrics);
      RecordKeepsHistory(endpointStats, recorded, m);
      var key := EndpointKey(m);
      var stats := StatsAt(endpointStats, key);
      metrics := Newest(metrics + [m], maxMetrics);
      endpointStats := endpointStats[key := Record(stats, m)];
      recorded := recorded + [m];
      HistoryConsistent(endpointStats, recorded);
    }
  }

  // ---------------------------------------------------------------- health checker

  /** A registered check: its name and whether its failure is critical. */
  datatype Check = Check(name: string, critical: bool)

  predicate UniqueNames(checks: seq<Check>)
  {
    forall i, j :: 0 <= i < j < |checks| ==> checks[i].name != checks[j].name
  }

  /** Where the dictionary holds a name, if it does. */
  function Position(checks: seq<Check>, name: string): (r: Option<nat>)
    ensures r.Some? ==> r.value < |checks| && checks[r.value].name == name
    ensures r.None? ==> forall i :: 0 <= i < |checks| ==> checks[i].name != name
  {
    if checks == [] then None
    else if checks[|checks| - 1].name == name then Some(|checks| - 1)
    else Position(checks[..|checks| - 1], name)
  }

  /**
   * `checks[name] = {...}` on an insertion-ordered dictionary: a known name
   * keeps its place and gets the new entry, a new one goes last.
   */
  function Register(checks: seq<Check>, name: string, critical: bool): seq<Check>
  {
    match Position(checks, name)
    case Some(i) => checks[i := Check(name, critical)]
    case None => checks + [Check(name, critical)]
  }

  /**
   * After registering, the name is held exactly once, with the new flag;
   * every other entry is kept, in place, and nothing else is added.
   */
  lemma RegisterEffect(checks: seq<Check>, name: string, critical: bool)
    requires UniqueNames(checks)
    ensures var r := Register(checks, name, critical);
      && UniqueNames(r)
      && (exists i :: 0 <= i < |r| && r[i] == Check(name, critical))
      && (forall i :: 0 <= i < |checks| && checks[i].name != name ==> r[i] == checks[i])
      && (forall i :: 0 <= i < |r| ==> r[i].name == name || (i < |checks| && r[i] == checks[i]))
      && |r| == |checks| + (if Position(checks, name).Some? then 0 else 1)
  {
    var r := Register(checks, name, critical);
    match Position(checks, name)
    case Some(i) =>
      assert r[i] == Check(name, critical);
    case None =>
      assert r[|checks|] == Check(name, critical);
  }

  /** Registering under an existing name replaces the earlier entry. */
  lemma RegisterReplaces(checks: seq<Check>, name: string, first: bool, second: bool)
    requires UniqueNames(checks)
    ensures Register(Register(checks, name, first), name, second) == Register(checks, name, second)
  {
    var r := Register(checks, name, first);
    RegisterEffect(checks, name, first);
    var i :| 0 <= i < |r| && r[i] == Check(name, first);
    var p := Position(r, name);
    assert p.Some?;
    assert p.value == i;
    match Position(checks, name)
    case Some(k) =>
      assert r == checks[k := Check(name, first)];
      assert i == k;
    case None =>
      assert i == |checks|;
  }

  /** What a check's function did when run: a truthy or falsy result, or an exception. */
  datatype Outcome = Truthy | Falsy | Raises(message: string)

  predicate Fails(o: Outcome)
  {
    !o.Truthy?
  }

  datatype Status = Healthy | Degraded | Critical

  /** Healthy < Degraded < Critical. */
  function Rank(s: Status): nat
  {
    match s
    case Healthy => 0
    case Degraded => 1
    case Critical => 2
  }

  /**
   * The overall status: critical when a critical check fails or raises,
   * degraded when some other check does, healthy otherwise.
   */
  function Overall(checks: seq<Check>, outcomes: seq<Outcome>): Status
    requires |outcomes| == |checks|
  {
    if exists i :: 0 <= i < |checks| && checks[i].critical && Fails(outcomes[i]) then Critical
    else if exists i :: 0 <= i < |checks| && Fails(outcomes[i]) then Degraded
    else Healthy
  }

  /** The per-check report's status text. */
  datatype CheckStatus = Up | Down | Errored

  datatype Report = Report(status: CheckStatus, critical: bool)

  function ReportFor(c: Check, o: Outcome): Report
  {
    Report(match o case Truthy => Up case Falsy => Down case Raises(_) => Errored, c.critical)
  }

  lemma OverallPrefix(checks: seq<Check>, outcomes: seq<Outcome>, k: nat)
    requires |outcomes| == |checks| && k < |checks|
    ensures var s := Overall(checks[..k], outcomes[..k]);
      Overall(checks[..k + 1], outcomes[..k + 1]) ==
        if Fails(outcomes[k]) && checks[k].critical then Critical
        else if Fails(outcomes[k]) && s == Healthy then Degraded
        else s
  {
    assert forall i :: 0 <= i < k ==> checks[..k + 1][i] == checks[..k][i] && outcomes[..k + 1][i] == outcomes[..k][i];
    assert checks[..k + 1][k] == checks[k] && outcomes[..k + 1][k] == outcomes[k];
  }

  /** Running more checks never lowers the status; in particular critical stays critical. */
  lemma OverallNeverDowngrades(checks: seq<Check>, outcomes: seq<Outcome>, k: nat)
    requires |outcomes| == |checks| && k <= |checks|
    ensures Rank(Overall(checks[..k], outcomes[..k])) <= Rank(Overall(checks, outcomes))
  {
    assert forall i :: 0 <= i < k ==> checks[..k][i] == checks[i] && outcomes[..k][i] == outcomes[i];
  }

  class HealthChecker {
    var checks: seq<Check>

    ghost predicate Valid()
      reads this
    {
      UniqueNames(checks)
    }

    constructor()
      ensures Valid() && checks == []
    {
      checks := [];
    }

    method RegisterCheck(name: string, critical: bool)
      modifies this
      requires Valid()
      ensures Valid() && checks == Register(old(checks), name, critical)
    {
      RegisterEffect(checks, name, critical);
      checks := Register(checks, name, critical);
    }

    /**
     * Runs the checks in registration order, `outcomes[i]` being what
     * check i did, and returns the overall status and one report per name.
     */
    method RunChecks(outcomes: seq<Outcome>) returns (status: Status, results: map<string, Report>)
      requires Valid() && |outcomes| == |checks|
      ensures status == Overall(checks, outcomes)
      ensures forall name :: name in results <==> exists i :: 0 <= i < |checks| && checks[i].name == name
      ensures forall i :: 0 <= i < |checks| ==> results[checks[i].name] == ReportFor(checks[i], outcomes[i])
    {
      status := Healthy;
      results := map[];
      assert checks[..0] == [] && outcomes[..0] == [];
      for k := 0 to |checks|
        invariant status == Overall(checks[..k], outcomes[..k])
        invariant forall name :: name in results <==> exists i :: 0 <= i < k && checks[i].name == name
        invariant forall i :: 0 <= i < k ==> results[checks[i].name] == ReportFor(checks[i], outcomes[i])
      {
        var check := checks[k];
        OverallPrefix(checks, outcomes, k);
        results := results[check.name := ReportFor(check, outcomes[k])];
        if Fails(outcomes[k]) && check.critical {
          status := Critical;
        } else if Fails(outcomes[k]) && status == Healthy {
          status := Degraded;
        }
      }
      assert checks[..|checks|] == checks && outcomes[..|outcomes|] == outcomes;
    }
  }

  // ---------------------------------------------------------------- metrics collector

  /** The `k=v` texts of the items, in the given order. */
  function TagTexts(items: seq<Ordering.Item>): (r: seq<string>)
    ensures |r| == |items|
    ensures forall i :: 0 <= i < |items| ==> r[i] == items[i].0 + "=" + items[i].1
  {
    if items == [] then [] else [items[0].0 + "=" + items[0].1] + TagTexts(items[1..])
  }

  /** `_make_key`: the bare name without tags, otherwise `name[k=v,...]` in key order. */
  function MakeKey(name: string, tags: seq<Ordering.Item>): string
  {
    if tags == [] then name
    else name + "[" + Join(TagTexts(Ordering.SortByKey(tags)), ',') + "]"
  }

  /** The key is the name alone exactly when there are no tags, and always starts with the name. */
  lemma MakeKeyBare(name: string, tags: seq<Ordering.Item>)
    ensures MakeKey(name, tags) == name <==> tags == []
    ensures StartsWith(MakeKey(name, tags), name)
  {
    if tags != [] {
      assert |MakeKey(name, tags)| > |name|;
    }
  }

  /**
   * With tags, the key lists them in increasing key order, whatever order
   * the dictionary holds them in.
   */
  lemma MakeKeySorted(name: string, tags: seq<Ordering.Item>, sorted: seq<Ordering.Item>)
    requires Ordering.UniqueKeys(tags) && tags != []
    requires Ordering.SortedByKey(sorted) && multiset(sorted) == multiset(tags)
    ensures MakeKey(name, tags) == name + "[" + Join(TagTexts(sorted), ',') + "]"
  {
    Ordering.SortByKeySorted(tags);
    Ordering.SortedByKeyUnique(Ordering.SortByKey(tags), sorted);
  }

  /** Equal tag dictionaries, in whatever insertion order, give equal keys. */
  lemma MakeKeyOrderFree(name: string, a: seq<Ordering.Item>, b: seq<Ordering.Item>)
    requires Ordering.UniqueKeys(a) && Ordering.UniqueKeys(b) && multiset(a) == multiset(b)
    ensures MakeKey(name, a) == MakeKey(name, b)
  {
    if a != [] {
      assert b != [] by {
        assert |a| == |multiset(a)| == |multiset(b)| == |b|;
      }
      Ordering.SortByKeySorted(a);
      Ordering.SortByKeySorted(b);
      Ordering.SortedByKeyUnique(Ordering.SortByKey(a), Ordering.SortByKey(b));
    } else {
      assert |b| == |multiset(b)| == |multiset(a)| == 0;
    }
  }

  const HISTOGRAM_SIZE: nat := 1000

  function CountAt(counters: map<string, int>, key: string): int
  {
    if key in counters then counters[key] else 0
  }

  function ValuesAt(histograms: map<string, seq<int>>, key: string): seq<int>
  {
    if key in histograms then histograms[key] else []
  }

  /** `_percentile`: the sorted values at index len * p / 100, or the last one past the end. */
  function Percentile(values: seq<int>, p: nat): (r: int)
    requires values != []
    ensures r in values
    ensures p >= 100 ==> forall v :: v in values ==> v <= r
    ensures p == 0 ==> forall v :: v in values ==> r <= v
  {
    Ordering.SortSameElements(values);
    var sorted := Ordering.Sort(values);
    var index := |sorted| * p / 100;
    assert p >= 100 ==> index >= |sorted| by {
      if p >= 100 {
        PercentileIndexPastEnd(|sorted|, p);
      }
    }
    sorted[if index < |sorted| - 1 then index else |sorted| - 1]
  }

  lemma PercentileIndexPastEnd(n: nat, p: nat)
    requires p >= 100
    ensures n * p / 100 >= n
  {
    Arith.MulMono(n, 100, p);
    Arith.DivMono(n * 100, n * p, 100);
  }

  class MetricsCollector {
    var counters: map<string, int>
    var gauges: map<string, int>
    var histograms: map<string, seq<int>>

    constructor()
      ensures counters == map[] && gauges == map[] && histograms == map[]
    {
      counters, gauges, histograms := map[], map[], map[];
    }

    /** Adds to the counter under the key, which starts at 0. */
    method Increment(name: string, value: int, tags: seq<Ordering.Item>)
      modifies this
      ensures var key := MakeKey(name, tags);
        counters == old(counters)[key := CountAt(old(counters), key) + value]
      ensures gauges == old(gauges) && histograms == old(histograms)
    {
      var key := MakeKey(name, tags);
      counters := counters[key := CountAt(counters, key) + value];
    }

    /** Overwrites the gauge under the key. */
    method Gauge(name: string, value: int, tags: seq<Ordering.Item>)
      modifies this
      ensures gauges == old(gauges)[MakeKey(name, tags) := value]
      ensures counters == old(counters) && histograms == old(histograms)
    {
      gauges := gauges[MakeKey(name, tags) := value];
    }

    /** Appends to the key's histogram and keeps its newest 1000 values. */
    method Histogram(name: string, value: int, tags: seq<Ordering.Item>)
      modifies this
      ensures var key := MakeKey(name, tags);
        histograms == old(histograms)[key := Newest(ValuesAt(old(histograms), key) + [value], HISTOGRAM_SIZE)]
      ensures counters == old(counters) && gauges == old(gauges)
    {
      var key := MakeKey(name, tags);
      var values := ValuesAt(histograms, key) + [value];
      if |values| > HISTOGRAM_SIZE {
        values := values[|values| - HISTOGRAM_SIZE..];
      }
      histograms := histograms[key := values];
    }
  }
}
