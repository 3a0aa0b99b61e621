/**
 Which resource made a request slow: the argmax of pkg/componment/onoffmetric/
 metric_cache.go over the on/off times of a trace and their base values, and the
 differences that pkg/clickhouse/tables/span_trace.go writes for the same trace.
 */
module MutatedType {
  import opened Basics
  import opened MachineInts
  import opened Text

  const CPU_TYPES: seq<string> := ["cpu", "file", "net", "futex", "idle", "other", "epoll", "runq"]

  /** The eight base values of a service and url. */
  datatype MetricDatas = MetricDatas(p90: seq<nat>)

  predicate WellFormed(m: MetricDatas) {
    |m.p90| == 8 && forall i :: 0 <= i < 8 ==> m.p90[i] <= MAX_UINT64
  }

  datatype MetricKey = MetricKey(serviceName: string, contentKey: string)

  datatype Range = Yesterday | Last1h | UnknownRange

  function RangeText(r: Range): string {
    match r case Yesterday => "24h" case Last1h => "1h" case UnknownRange => "unknown"
  }

  // ---------------------------------------------------------------- base values

  class MetricCache {
    var yesterdayMetricMap: map<MetricKey, MetricDatas>
    var lastHourMetricMap: map<MetricKey, MetricDatas>

    constructor ()
      ensures yesterdayMetricMap == map[] && lastHourMetricMap == map[]
    {
      yesterdayMetricMap, lastHourMetricMap := map[], map[];
    }

    /** The entry of the service, or else that of the url in any service; yesterday before the last hour. */
    method GetMetricValue(key: MetricKey) returns (metric: Option<MetricDatas>, range: Range)
      ensures (metric, range) == Lookup(yesterdayMetricMap, lastHourMetricMap, key)
    {
      if key in yesterdayMetricMap {
        return Some(yesterdayMetricMap[key]), Yesterday;
      }
      if key in lastHourMetricMap {
        return Some(lastHourMetricMap[key]), Last1h;
      }
      var anyService := MetricKey("", key.contentKey);
      if anyService in yesterdayMetricMap {
        return Some(yesterdayMetricMap[anyService]), Yesterday;
      }
      if anyService in lastHourMetricMap {
        return Some(lastHourMetricMap[anyService]), Last1h;
      }
      return None, UnknownRange;
    }

    /**
     The merge of an hour's values: a key that yesterday has is left out, a key
     that is there keeps the smaller total, the old entry on a tie.
     */
    method StoreLastHourMetrics(result: map<MetricKey, MetricDatas>) returns (count: nat)
      requires forall k :: k in result ==> WellFormed(result[k])
      requires forall k :: k in lastHourMetricMap ==> WellFormed(lastHourMetricMap[k])
      modifies this`lastHourMetricMap
      ensures lastHourMetricMap.Keys == old(lastHourMetricMap.Keys) + (result.Keys - yesterdayMetricMap.Keys)
      ensures lastHourMetricMap == Stored(old(lastHourMetricMap), result, yesterdayMetricMap.Keys, {})
    {
      count := 0;
      ghost var before := lastHourMetricMap;
      var todo := result.Keys;
      while todo != {}
        invariant todo <= result.Keys
        invariant lastHourMetricMap == Stored(before, result, yesterdayMetricMap.Keys, todo)
      {
        var key :| key in todo;
        var value := result[key];
        StoredOne(before, result, yesterdayMetricMap.Keys, todo, key);
        if key !in yesterdayMetricMap {
          if key in lastHourMetricMap {
            if Compare(lastHourMetricMap[key], value) > 0 {
              lastHourMetricMap := lastHourMetricMap[key := value];
              count := count + 1;
            }
          } else {
            lastHourMetricMap := lastHourMetricMap[key := value];
            count := count + 1;
          }
        }
        todo := todo - {key};
      }
    }
  }

  function Takes(before: map<MetricKey, MetricDatas>, value: MetricDatas, key: MetricKey): bool {
    key in before ==> Compare(before[key], value) > 0
  }

  /** The last-hour map when the keys in todo are still to come. */
  ghost function Stored(before: map<MetricKey, MetricDatas>, result: map<MetricKey, MetricDatas>,
                        yesterday: set<MetricKey>, todo: set<MetricKey>): map<MetricKey, MetricDatas> {
    before + map k | k in result && k !in todo && k !in yesterday && Takes(before, result[k], k) :: result[k]
  }

  lemma StoredOne(before: map<MetricKey, MetricDatas>, result: map<MetricKey, MetricDatas>,
                  yesterday: set<MetricKey>, todo: set<MetricKey>, key: MetricKey)
    requires key in todo && key in result
    ensures var s := Stored(before, result, yesterday, todo);
      && (key in s <==> key in before) && (key in s ==> s[key] == before[key])
      && Stored(before, result, yesterday, todo - {key}) ==
         if key !in yesterday && Takes(before, result[key], key) then s[key := result[key]] else s
  {
  }

  function Lookup(yesterday: map<MetricKey, MetricDatas>, lastHour: map<MetricKey, MetricDatas>, key: MetricKey):
    (Option<MetricDatas>, Range)
  {
    var own := Either(yesterday, lastHour, key);
    if own.0.Some? then own else Either(yesterday, lastHour, MetricKey("", key.contentKey))
  }

  function Either(yesterday: map<MetricKey, MetricDatas>, lastHour: map<MetricKey, MetricDatas>, key: MetricKey):
    (Option<MetricDatas>, Range)
  {
    if key in yesterday then (Some(yesterday[key]), Yesterday)
    else if key in lastHour then (Some(lastHour[key]), Last1h)
    else (None, UnknownRange)
  }

  function Total(s: seq<nat>): nat {
    if s == [] then 0 else Total(s[..|s| - 1]) + s[|s| - 1]
  }

  /** The sign of the difference of the totals, kept in an int64. */
  function Compare(a: MetricDatas, b: MetricDatas): int {
    var d := ToInt64(Total(a.p90) - Total(b.p90));
    if d > 0 then 1 else if d < 0 then -1 else 0
  }

  /** A key of both maps that yesterday lacks keeps the smaller total, while the totals fit an int64. */
  lemma SmallerKept(before: map<MetricKey, MetricDatas>, result: map<MetricKey, MetricDatas>,
                    yesterday: set<MetricKey>, k: MetricKey)
    requires k in before && k in result && k !in yesterday
    requires Total(before[k].p90) < TWO_63 && Total(result[k].p90) < TWO_63
    ensures var kept := Stored(before, result, yesterday, {})[k];
      && (kept == before[k] || kept == result[k])
      && Total(kept.p90) <= Total(before[k].p90) && Total(kept.p90) <= Total(result[k].p90)
      && (Total(before[k].p90) == Total(result[k].p90) ==> kept == before[k])
  {
    var d := Total(before[k].p90) - Total(result[k].p90);
    if d < 0 {
      assert d % TWO_64 == d + TWO_64;
    } else {
      assert d % TWO_64 == d;
    }
  }

  /**
   Every other key: one that yesterday has stays as it was, a new one is taken, an
   old one without a new value stays.
   */
  lemma OthersStored(before: map<MetricKey, MetricDatas>, result: map<MetricKey, MetricDatas>,
                     yesterday: set<MetricKey>, k: MetricKey)
    ensures var s := Stored(before, result, yesterday, {});
      && (k in yesterday || k !in result ==> (k in s <==> k in before) && (k in s ==> s[k] == before[k]))
      && (k !in yesterday && k in result && k !in before ==> k in s && s[k] == result[k])
  {
  }

  /** The sum that is compared is that of the eight values. */
  lemma TotalOfEight(m: MetricDatas)
    requires WellFormed(m)
    ensures var v := m.p90;
      Total(v) == v[0] + v[1] + v[2] + v[3] + v[4] + v[5] + v[6] + v[7]
  {
    var v := m.p90;
    assert v[..8] == v && Total(v[..0]) == 0;
    forall i | 0 <= i < 8
      ensures Total(v[..i + 1]) == Total(v[..i]) + v[i]
    {
      TotalNext(v, i);
    }
    assert Total(v[..0 + 1]) == v[0] && Total(v[..1 + 1]) == v[0] + v[1];
    assert Total(v[..2 + 1]) == Total(v[..1 + 1]) + v[2] && Total(v[..3 + 1]) == Total(v[..2 + 1]) + v[3];
    assert Total(v[..4 + 1]) == Total(v[..3 + 1]) + v[4] && Total(v[..5 + 1]) == Total(v[..4 + 1]) + v[5];
    assert Total(v[..6 + 1]) == Total(v[..5 + 1]) + v[6] && Total(v[..7 + 1]) == Total(v[..6 + 1]) + v[7];
  }

  lemma TotalNext(v: seq<nat>, i: nat)
    requires i < |v|
    ensures Total(v[..i + 1]) == Total(v[..i]) + v[i]
  {
    assert v[..i + 1][..i] == v[..i];
  }

  /**
   Where a base value comes from, by the keys that are there: the service's own
   entry of yesterday, or of the last hour; without either, the entry of the url
   alone, in the same order; and by which text the range is reported.
   */
  lemma LookupSays(yesterday: map<MetricKey, MetricDatas>, lastHour: map<MetricKey, MetricDatas>, key: MetricKey)
    ensures var found, url := Lookup(yesterday, lastHour, key), MetricKey("", key.contentKey);
      && (key in yesterday ==> found.0 == Some(yesterday[key]) && RangeText(found.1) == "24h")
      && (key !in yesterday && key in lastHour ==> found.0 == Some(lastHour[key]) && RangeText(found.1) == "1h")
      && (key !in yesterday && key !in lastHour && url in yesterday ==>
           found.0 == Some(yesterday[url]) && RangeText(found.1) == "24h")
      && (key !in yesterday && key !in lastHour && url !in yesterday && url in lastHour ==>
           found.0 == Some(lastHour[url]) && RangeText(found.1) == "1h")
      && ({key, url} !! yesterday.Keys + lastHour.Keys ==> found.0 == None && RangeText(found.1) == "unknown")
  {
  }

  // ---------------------------------------------------------------- base text

  /** "%d" of the values, separated by commas. */
  function MetricStr(values: seq<nat>): string
    requires |values| > 0
  {
    Join(seq(|values|, i requires 0 <= i < |values| => Dec(values[i])), ',')
  }

  /** Splitting the base text and parsing its parts gives the base values back. */
  lemma MetricStrBack(values: seq<nat>)
    requires |values| > 0 && forall i :: 0 <= i < |values| ==> values[i] <= MAX_UINT64
    ensures |Split(MetricStr(values), ',')| == |values|
    ensures forall i :: 0 <= i < |values| ==> ParseUint(Split(MetricStr(values), ',')[i]) == values[i]
  {
    var parts := seq(|values|, i requires 0 <= i < |values| => Dec(values[i]));
    forall i | 0 <= i < |parts|
      ensures Free(parts[i], ',') && ParseUint(parts[i]) == values[i]
    {
      DecFree(values[i], ',');
      ParseDec(values[i]);
    }
    SplitJoin(parts, ',');
  }

  lemma {:induction false} JoinNonEmpty(parts: seq<string>, sep: char)
    requires |parts| > 1
    ensures Join(parts, sep) != ""
  {
  }

  // ---------------------------------------------------------------- the two computations

  /** The excess over the base, 0 when there is none. */
  function Excess(value: nat, base: nat): nat {
    if value > base then value - base else 0
  }

  function BaseOf(metric: Option<MetricDatas>, i: nat): nat
    requires metric.Some? ==> WellFormed(metric.value)
    requires i < 8
  {
    if metric.None? then 0 else metric.value.p90[i]
  }

  /** The excesses of the eight resources: seven fields in order, and the run queue in the given field. */
  function Excesses(fields: seq<string>, runq: nat, metric: Option<MetricDatas>): (e: seq<nat>)
    requires |fields| >= 7 && runq < |fields| && (metric.Some? ==> WellFormed(metric.value))
    ensures |e| == 8
  {
    seq(8, i requires 0 <= i < 8 => Excess(ParseUint(fields[if i == 7 then runq else i]), BaseOf(metric, i)))
  }

  /**
   What the two computations compare: resource i is read from field i, the run
   queue from the field given, and the excess is what the value has above its base.
   */
  lemma ExcessSays(fields: seq<string>, runq: nat, metric: Option<MetricDatas>, i: nat)
    requires |fields| >= 7 && runq < |fields| && (metric.Some? ==> WellFormed(metric.value)) && i < 8
    ensures var e, value := Excesses(fields, runq, metric)[i], ParseUint(if i < 7 then fields[i] else fields[runq]);
      var base := if metric.Some? then metric.value.p90[i] else 0;
      (value <= base ==> e == 0) && (value > base ==> base + e == value)
  {
  }

  /** The first position of the largest positive entry, -1 if there is none. */
  ghost predicate FirstLargest(e: seq<nat>, t: int) {
    if t == -1 then forall i :: 0 <= i < |e| ==> e[i] == 0
    else
      && 0 <= t < |e| && e[t] > 0
      && (forall i :: 0 <= i < |e| ==> e[i] <= e[t])
      && (forall i :: 0 <= i < t ==> e[i] < e[t])
  }

  lemma FirstLargestUnique(e: seq<nat>, s: int, t: int)
    requires FirstLargest(e, s) && FirstLargest(e, t)
    ensures s == t
  {
  }

  /** GetCpuType and String. */
  function TypeName(t: int): string {
    if 0 <= t < 8 then CPU_TYPES[t] else "unknown"
  }

  /**
   CalcMutatedType on the fields of a value text. With fewer than seven fields
   the source fails on an index; the run queue is its last field, whatever
   their number.
   */
  method CalcMutatedType(cache: MetricCache, key: MetricKey, values: string)
    returns (r: Option<int>, base: string, range: string)
    requires forall k :: k in cache.yesterdayMetricMap ==> WellFormed(cache.yesterdayMetricMap[k])
    requires forall k :: k in cache.lastHourMetricMap ==> WellFormed(cache.lastHourMetricMap[k])
    ensures r.None? <==> |Split(values, ',')| < 7
    ensures var found := Lookup(cache.yesterdayMetricMap, cache.lastHourMetricMap, key);
      && (r.Some? ==> base == BaseText(found.0) && range == RangeText(found.1))
      && (r.Some? ==> FirstLargest(Excesses(Split(values, ','), |Split(values, ',')| - 1, found.0), r.value))
  {
    var onoffValues := Split(values, ',');
    var metric, thresholdRange := cache.GetMetricValue(key);
    if |onoffValues| < 7 {
      return None, "", "";
    }
    var mutatedType: int, mutatedValue: nat := -1, 0;
    ghost var excess := seq(7, i requires 0 <= i < 7 => Excess(ParseUint(onoffValues[i]), BaseOf(metric, i)));
    for i := 0 to 7
      invariant mutatedValue == if mutatedType == -1 then 0 else if 0 <= mutatedType < i then excess[mutatedType] else 0
      invariant FirstLargest(excess[..i], mutatedType)
    {
      var metricValue := ParseUint(onoffValues[i]);
      if metricValue > 0 {
        var baseValue := BaseOf(metric, i);
        if metricValue > baseValue && (mutatedValue == 0 || mutatedValue < metricValue - baseValue) {
          mutatedValue := metricValue - baseValue;
          mutatedType := i;
        }
      }
      assert excess[..i + 1] == excess[..i] + [excess[i]];
    }
    assert excess[..7] == excess;
    ghost var all := excess + [Excess(ParseUint(onoffValues[|onoffValues| - 1]), BaseOf(metric, 7))];
    var metricValue := ParseUint(onoffValues[|onoffValues| - 1]);
    if metricValue > 0 {
      var baseValue := BaseOf(metric, 7);
      if metricValue > baseValue && (mutatedValue == 0 || mutatedValue < metricValue - baseValue) {
        mutatedType := 7;
      }
    }
    assert FirstLargest(all, mutatedType);
    assert all == Excesses(onoffValues, |onoffValues| - 1, metric);
    return Some(mutatedType), BaseText(metric), RangeText(thresholdRange);
  }

  function BaseText(metric: Option<MetricDatas>): string
    requires metric.Some? ==> WellFormed(metric.value)
  {
    if metric.None? then "" else MetricStr(metric.value.p90)
  }

  /** The base values that the writer of span traces reads from the base text. */
  function BasesRead(base: string, fields: nat): seq<string> {
    if base == "" then seq(fields, _ => "") else Split(base, ',')
  }

  /** The difference that is stored for resource i. */
  function Difference(fields: seq<string>, bases: seq<string>, i: nat): nat
    requires |fields| >= 9 && |bases| >= 8 && i < 8
  {
    Excess(ParseUint(fields[if i == 7 then 8 else i]), ParseUint(bases[i]))
  }

  /** The map after the first n resources. */
  function Differences(fields: seq<string>, bases: seq<string>, n: nat): map<string, nat>
    requires |fields| >= 9 && |bases| >= 8 && n <= 8
  {
    if n == 0 then map[] else Differences(fields, bases, n - 1)[CPU_TYPES[n - 1] := Difference(fields, bases, n - 1)]
  }

  lemma {:induction false} DifferencesAt(fields: seq<string>, bases: seq<string>, n: nat, i: nat)
    requires |fields| >= 9 && |bases| >= 8 && i < n <= 8
    ensures var m := Differences(fields, bases, n);
      CPU_TYPES[i] in m && m[CPU_TYPES[i]] == Difference(fields, bases, i)
  {
    TypesDistinct();
    if i < n - 1 {
      DifferencesAt(fields, bases, n - 1, i);
    }
  }

  /** calcMutatedTypes; None where the source fails on an index. */
  method CalcMutatedTypes(onoffMetrics: string, baseOnOffMetrics: string) returns (r: Option<map<string, nat>>)
    ensures onoffMetrics == "" ==> r == Some(map[])
    ensures onoffMetrics != "" ==>
      var fields, bases := Split(onoffMetrics, ','), BasesRead(baseOnOffMetrics, |Split(onoffMetrics, ',')|);
      r == if |fields| >= 9 && |bases| >= 8 then Some(Differences(fields, bases, 8)) else None
  {
    var mutatedValues: map<string, nat> := map[];
    if onoffMetrics == "" {
      return Some(mutatedValues);
    }
    var onoffValues := Split(onoffMetrics, ',');
    var baseOnOffValues := Split(baseOnOffMetrics, ',');
    if baseOnOffMetrics == "" {
      baseOnOffValues := seq(|onoffValues|, _ => "");
    }
    if |onoffValues| < 9 || |baseOnOffValues| < 8 {
      return None;
    }
    for i := 0 to 9
      invariant mutatedValues == Differences(onoffValues, baseOnOffValues, if i < 8 then i else i - 1)
    {
      if i == 7 {
        continue;
      }
      var index := i;
      if i == 8 {
        index := 7;
      }
      var metricValue := ParseUint(onoffValues[i]);
      var baseOnOffValue := ParseUint(baseOnOffValues[index]);
      var diffValue := 0;
      if metricValue > baseOnOffValue {
        diffValue := metricValue - baseOnOffValue;
      }
      assert diffValue == Difference(onoffValues, baseOnOffValues, index);
      mutatedValues := mutatedValues[CPU_TYPES[index] := diffValue];
    }
    return Some(mutatedValues);
  }

  lemma TypesDistinct()
    ensures forall i, j :: 0 <= i < j < 8 ==> CPU_TYPES[i] != CPU_TYPES[j]
  {
    assert forall i :: 0 <= i < 8 ==> |CPU_TYPES[i]| == [3, 4, 3, 5, 4, 5, 5, 4][i];
    assert forall i :: 0 <= i < 8 ==> CPU_TYPES[i][0] == ['c', 'f', 'n', 'f', 'i', 'o', 'e', 'r'][i];
    assert |CPU_TYPES[1]| != |CPU_TYPES[3]|;
  }

  /** What is read from the base text of a lookup are the base values of that lookup. */
  lemma BasesAgree(metric: Option<MetricDatas>, fields: nat)
    requires fields >= 9 && (metric.Some? ==> WellFormed(metric.value))
    ensures var bases := BasesRead(BaseText(metric), fields);
      |bases| >= 8 && forall i :: 0 <= i < 8 ==> ParseUint(bases[i]) == BaseOf(metric, i)
  {
    if metric.Some? {
      var v := metric.value.p90;
      MetricStrBack(v);
      JoinNonEmpty(seq(|v|, i requires 0 <= i < |v| => Dec(v[i])), ',');
    }
  }

  /** The excess of the run queue, read from the given field, is positive and above those of the first seven fields. */
  predicate RunqLeads(fields: seq<string>, runq: nat, metric: Option<MetricDatas>)
    requires |fields| >= 7 && runq < |fields| && (metric.Some? ==> WellFormed(metric.value))
  {
    var e := Excesses(fields, runq, metric);
    e[7] > 0 && forall i :: 0 <= i < 7 ==> e[i] < e[7]
  }

  /**
   Two readings of the run queue give the same first largest excess if and only
   if it leads in both or in none.
   */
  lemma RunqDecides(fields: seq<string>, p: nat, q: nat, metric: Option<MetricDatas>, t: int)
    requires |fields| >= 7 && p < |fields| && q < |fields| && (metric.Some? ==> WellFormed(metric.value))
    requires FirstLargest(Excesses(fields, p, metric), t)
    ensures FirstLargest(Excesses(fields, q, metric), t) <==>
      (RunqLeads(fields, p, metric) <==> RunqLeads(fields, q, metric))
  {
    var e, f := Excesses(fields, p, metric), Excesses(fields, q, metric);
    assert forall i :: 0 <= i < 7 ==> e[i] == f[i];
    LeadIsSeven(e, t);
    if FirstLargest(f, t) {
      LeadIsSeven(f, t);
    } else if RunqLeads(fields, p, metric) && RunqLeads(fields, q, metric) {
      assert FirstLargest(f, 7);
    }
  }

  lemma LeadIsSeven(e: seq<nat>, t: int)
    requires |e| == 8 && FirstLargest(e, t)
    ensures t == 7 <==> e[7] > 0 && forall i :: 0 <= i < 7 ==> e[i] < e[7]
  {
    if e[7] > 0 && forall i :: 0 <= i < 7 ==> e[i] < e[7] {
      assert FirstLargest(e, 7);
      FirstLargestUnique(e, t, 7);
    }
  }

  /**
   Both computations on one trace. The analyzer takes the last field as the run
   queue and fails on fewer than seven; the writer takes the ninth and fails on
   fewer than nine. Where both answer, the type that the analyzer reports is the
   first with the largest positive difference that the writer stores, "unknown"
   if all are 0, if and only if the run queue leads by both fields or by none;
   so always with nine fields.
   */
  method ComputationsAgree(cache: MetricCache, key: MetricKey, values: string)
    returns (t: Option<int>, stored: Option<map<string, nat>>, ghost diffs: seq<nat>)
    requires forall k :: k in cache.yesterdayMetricMap ==> WellFormed(cache.yesterdayMetricMap[k])
    requires forall k :: k in cache.lastHourMetricMap ==> WellFormed(cache.lastHourMetricMap[k])
    ensures t.Some? <==> |Split(values, ',')| >= 7
    ensures stored.Some? <==> |Split(values, ',')| >= 9
    ensures stored.Some? ==>
      |diffs| == 8 && forall i :: 0 <= i < 8 ==> CPU_TYPES[i] in stored.value && stored.value[CPU_TYPES[i]] == diffs[i]
    ensures stored.Some? ==>
      var fields := Split(values, ',');
      var metric := Lookup(cache.yesterdayMetricMap, cache.lastHourMetricMap, key).0;
      FirstLargest(diffs, t.value) <==> (RunqLeads(fields, |fields| - 1, metric) <==> RunqLeads(fields, 8, metric))
    ensures stored.Some? && FirstLargest(diffs, t.value) ==>
      (TypeName(t.value) == "unknown" <==> forall i :: 0 <= i < 8 ==> stored.value[CPU_TYPES[i]] == 0)
    ensures |Split(values, ',')| == 9 ==> FirstLargest(diffs, t.value)
  {
    var base, range;
    t, base, range := CalcMutatedType(cache, key, values);
    diffs := [];
    if t.None? {
      return None, None, [];
    }
    assert Split("", ',') == [""];
    stored := CalcMutatedTypes(values, base);
    ghost var metric := Lookup(cache.yesterdayMetricMap, cache.lastHourMetricMap, key).0;
    ghost var fields := Split(values, ',');
    if |fields| >= 9 {
      BothAnswer(fields, metric, t.value, stored);
      diffs := Excesses(fields, 8, metric);
    }
  }

  lemma BothAnswer(fields: seq<string>, metric: Option<MetricDatas>, t: int, stored: Option<map<string, nat>>)
    requires |fields| >= 9 && (metric.Some? ==> WellFormed(metric.value))
    requires FirstLargest(Excesses(fields, |fields| - 1, metric), t)
    requires var bases := BasesRead(BaseText(metric), |fields|);
      stored == if |bases| >= 8 then Some(Differences(fields, bases, 8)) else None
    ensures var diffs := Excesses(fields, 8, metric);
      && stored.Some?
      && (forall i :: 0 <= i < 8 ==> CPU_TYPES[i] in stored.value && stored.value[CPU_TYPES[i]] == diffs[i])
      && (FirstLargest(diffs, t) <==> (RunqLeads(fields, |fields| - 1, metric) <==> RunqLeads(fields, 8, metric)))
      && (FirstLargest(diffs, t) ==>
           (TypeName(t) == "unknown" <==> forall i :: 0 <= i < 8 ==> stored.value[CPU_TYPES[i]] == 0))
  {
    DiffsStored(fields, metric, stored);
    RunqDecides(fields, |fields| - 1, 8, metric, t);
    KnownNames(t);
  }

  /** The stored map holds the excesses over the looked up base values. */
  lemma DiffsStored(fields: seq<string>, metric: Option<MetricDatas>, stored: Option<map<string, nat>>)
    requires |fields| >= 9 && (metric.Some? ==> WellFormed(metric.value))
    requires var bases := BasesRead(BaseText(metric), |fields|);
      stored == if |bases| >= 8 then Some(Differences(fields, bases, 8)) else None
    ensures stored.Some?
    ensures forall i :: 0 <= i < 8 ==>
      CPU_TYPES[i] in stored.value && stored.value[CPU_TYPES[i]] == Excesses(fields, 8, metric)[i]
  {
    var bases := BasesRead(BaseText(metric), |fields|);
    BasesAgree(metric, |fields|);
    forall i | 0 <= i < 8
      ensures CPU_TYPES[i] in stored.value && stored.value[CPU_TYPES[i]] == Excesses(fields, 8, metric)[i]
    {
      DifferencesAt(fields, bases, 8, i);
    }
  }

  /** The names that are reported and stored, in the order of the values. */
  lemma NamesAre()
    ensures TypeName(0) == "cpu" && TypeName(1) == "file" && TypeName(2) == "net" && TypeName(3) == "futex"
    ensures TypeName(4) == "idle" && TypeName(5) == "other" && TypeName(6) == "epoll" && TypeName(7) == "runq"
    ensures TypeName(-1) == "unknown"
  {
  }

  lemma KnownNames(t: int)
    requires -1 <= t < 8
    ensures TypeName(t) == "unknown" <==> t == -1
  {
    assert |"unknown"| == 7;
    assert forall i :: 0 <= i < 8 ==> |CPU_TYPES[i]| < 7;
  }

  /** A text on which they part: ten fields of which only the ninth is not 0. */
  lemma TenFieldsPart()
    ensures var fields := ["0", "0", "0", "0", "0", "0", "0", "0", "5", "0"];
      FirstLargest(Excesses(fields, 9, None), -1) && FirstLargest(Excesses(fields, 8, None), 7)
  {
    ParseDec(0);
    ParseDec(5);
    assert Dec(0) == "0" && Dec(5) == "5";
  }
}
