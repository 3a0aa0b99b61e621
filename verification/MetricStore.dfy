/**
 The metrics of one definition (pkg/metrics/metrics.go) over an LRU cache whose
 evicted items stay readable until the next export (pkg/metrics/model/cache.go).
 A metric is represented by its state: the counters of a histogram, the running
 total of a counter or gauge.
 */
module MetricStore {
  import opened Basics
  import opened Text
  import Histogram

  /** CounterDecreased: the library's counter panics on a negative value. */
  datatype Outcome = Done | WrongValueCount | UnknownMetricType | CounterDecreased

  datatype MetricType = HistogramType | CounterType | GaugeType | OtherType

  // ---------------------------------------------------------------- metrics

  type BucketCounts = f: Histogram.Flat | Histogram.Shaped(f) witness Histogram.Empty()

  datatype Metric = Buckets(flat: BucketCounts) | CounterTotal(total: real) | GaugeTotal(total: real)

  function NewMetric(kind: MetricType): Metric
    requires !kind.OtherType?
  {
    match kind
    case HistogramType => Buckets(Histogram.Empty())
    case CounterType => CounterTotal(0.0)
    case GaugeType => GaugeTotal(0.0)
  }

  /** Whether Update of the metric panics. */
  predicate Refuses(m: Metric, value: real) {
    m.CounterTotal? && value < 0.0
  }

  /** Update of a histogram, Add of a counter or gauge. */
  function Bumped(m: Metric, value: real): Metric {
    if Refuses(m, value) then m
    else
      match m
      case Buckets(flat) => Buckets(Histogram.Updated(flat, Histogram.Num(value)))
      case CounterTotal(total) => CounterTotal(total + value)
      case GaugeTotal(total) => GaugeTotal(total + value)
  }

  /** What MarshalTo writes: bucket rows, and sum and count unless empty; or one value. */
  datatype Sample = Rows(rows: seq<(Histogram.Bucket, nat)>, totals: seq<(real, nat)>) | Value(value: real)

  function SampleOf(m: Metric): Sample {
    match m
    case Buckets(flat) =>
      var rows := Histogram.Visited(flat);
      Rows(rows, if Histogram.Total(rows) > 0 then [(flat.sum, Histogram.Total(rows))] else [])
    case CounterTotal(total) => Value(total)
    case GaugeTotal(total) => Value(total)
  }

  // ---------------------------------------------------------------- order

  function Without(s: seq<string>, key: string): seq<string> {
    if s == [] then [] else (if s[0] == key then [] else [s[0]]) + Without(s[1..], key)
  }

  lemma {:induction false} WithoutKeeps(s: seq<string>, key: string)
    requires NoDup(s)
    ensures NoDup(Without(s, key))
    ensures forall x :: x in Without(s, key) <==> x in s && x != key
    ensures |Without(s, key)| == if key in s then |s| - 1 else |s|
    ensures key !in s ==> Without(s, key) == s
  {
    if s != [] {
      WithoutKeeps(s[1..], key);
      assert forall i :: 0 < i < |s| ==> s[i] == s[1..][i - 1];
      assert s[0] !in s[1..];
    }
  }

  /** The key becomes the newest; of more than size keys the oldest falls out. */
  function Touched(order: seq<string>, key: string): seq<string> {
    [key] + Without(order, key)
  }

  function Kept(order: seq<string>, size: nat): seq<string> {
    if |order| <= size then order else order[..size]
  }

  function Dropped(order: seq<string>, size: nat): set<string> {
    if |order| <= size then {} else {order[|order| - 1]}
  }

  /** Touching keeps the keys distinct, and what falls out was there and is gone. */
  lemma TouchedKeeps(order: seq<string>, key: string, size: nat)
    requires NoDup(order) && 0 < size && |order| <= size
    ensures var t := Touched(order, key);
      && NoDup(t) && NoDup(Kept(t, size)) && |Kept(t, size)| <= size
      && (forall x :: x in t <==> x == key || x in order)
      && (forall x :: x in Kept(t, size) <==> x in t && x !in Dropped(t, size))
      && key in Kept(t, size)
      && |t| == (if key in order then |order| else |order| + 1)
      && (key !in order ==> t == [key] + order)
      && (key in order ==> Kept(t, size) == t)
  {
    WithoutKeeps(order, key);
    var t := Touched(order, key);
    assert |t| <= size + 1;
    if |t| > size {
      assert t == Kept(t, size) + [t[size]];
    }
    assert t[0] == key;
  }

  lemma MergeUpdate<V>(old0: map<string, V>, items: map<string, V>, key: string, value: V)
    ensures old0 + items[key := value] == (old0 + items)[key := value]
  {
  }

  // ---------------------------------------------------------------- the cache

  /**
   simplelru by its contract (order lists the keys, newest first) and the map
   that its eviction callback fills.
   */
  class Cache<V> {
    const size: nat
    var order: seq<string>
    var items: map<string, V>
    var evictedItems: map<string, V>

    ghost predicate Valid()
      reads this
    {
      && size > 0 && NoDup(order) && |order| <= size
      && forall k :: k in items <==> k in order
    }

    /** Everything that Get can find. */
    ghost function Contents(): map<string, V>
      reads this
    {
      evictedItems + items
    }

    constructor (size: nat)
      requires size > 0
      ensures Valid() && this.size == size && order == [] && evictedItems == map[]
    {
      this.size := size;
      order, items, evictedItems := [], map[], map[];
    }

    method RemoveEvictedItems()
      requires Valid()
      modifies this`evictedItems
      ensures Valid() && evictedItems == map[]
    {
      while evictedItems.Keys != {}
        decreases evictedItems.Keys
      {
        var k :| k in evictedItems;
        ghost var keys := evictedItems.Keys;
        evictedItems := evictedItems - {k};
        assert evictedItems.Keys == keys - {k};
      }
    }

    /** lru.Add: a known key is moved and overwritten, a new one may push out the oldest. */
    method Add(key: string, value: V) returns (evicted: bool)
      requires Valid()
      modifies this
      ensures Valid()
      ensures order == Kept(Touched(old(order), key), size)
      ensures evictedItems.Keys == old(evictedItems.Keys) + Dropped(Touched(old(order), key), size)
      ensures Contents() == old(Contents())[key := value]
      ensures evicted <==> key !in old(order) && |old(order)| == size
    {
      TouchedKeeps(order, key, size);
      MergeUpdate(evictedItems, items, key, value);
      evicted := false;
      if key in items {
        order := [key] + Without(order, key);
        items := items[key := value];
      } else {
        order := [key] + order;
        items := items[key := value];
        if |order| > size {
          Evict();
          evicted := true;
        }
      }
    }

    /** removeOldest: the callback keeps the item that leaves the LRU. */
    method Evict()
      requires NoDup(order) && |order| == size + 1 && size > 0
      requires forall k :: k in items <==> k in order
      modifies this
      ensures Valid()
      ensures order == Kept(old(order), size)
      ensures evictedItems.Keys == old(evictedItems.Keys) + Dropped(old(order), size)
      ensures Contents() == old(Contents())
    {
      var oldest := order[|order| - 1];
      var value := items[oldest];
      assert order == order[..size] + [oldest];
      order := order[..|order| - 1];
      evictedItems := evictedItems[oldest := value];
      items := items - {oldest};
    }

    /** Found in the LRU, or revived from the evicted items, a key becomes the newest. */
    method Get(key: string) returns (value: Option<V>)
      requires Valid()
      modifies this
      ensures Valid()
      ensures value == if key in old(Contents()) then Some(old(Contents())[key]) else None
      ensures Contents() == old(Contents())
      ensures value.None? ==> order == old(order) && evictedItems == old(evictedItems)
      ensures value.Some? ==> order == Kept(Touched(old(order), key), size)
      ensures value.Some? && key in old(order) ==> evictedItems == old(evictedItems)
      ensures value.Some? && key !in old(order) ==>
        evictedItems.Keys == (old(evictedItems.Keys) - {key}) + Dropped(Touched(old(order), key), size)
    {
      TouchedKeeps(order, key, size);
      if key in items {
        order := [key] + Without(order, key);
        return Some(items[key]);
      }
      if key !in evictedItems {
        return None;
      }
      var revived := Revive(key);
      return Some(revived);
    }

    /** The item moves from the evicted ones back into the LRU. */
    method Revive(key: string) returns (value: V)
      requires Valid() && key in evictedItems && key !in order
      modifies this
      ensures Valid() && Contents() == old(Contents()) && value == old(Contents())[key]
      ensures order == Kept(Touched(old(order), key), size)
      ensures evictedItems.Keys == (old(evictedItems.Keys) - {key}) + Dropped(Touched(old(order), key), size)
    {
      value := evictedItems[key];
      ghost var found := Contents();
      evictedItems := evictedItems - {key};
      var _ := Add(key, value);
      assert Contents() == found;
    }

    method Contains(key: string) returns (r: bool)
      requires Valid()
      ensures r <==> key in order
    {
      r := key in items;
    }
  }

  // ---------------------------------------------------------------- keys

  /** The labels of a metric, as a prometheus label list. */
  function LabelKey(keys: seq<string>, values: seq<string>): string
    requires |keys| == |values|
  {
    if keys == [] then ""
    else
      var n := |keys| - 1;
      LabelKey(keys[..n], values[..n]) + (if n > 0 then "," else "") + keys[n] + "=\"" + values[n] + "\""
  }

  method BuildLabelKey(keys: seq<string>, values: seq<string>) returns (key: Option<string>)
    ensures key == if |values| == |keys| then Some(LabelKey(keys, values)) else None
  {
    if |values| != |keys| {
      return None;
    }
    var buffer := "";
    for i := 0 to |keys|
      invariant buffer == LabelKey(keys[..i], values[..i])
    {
      if i > 0 {
        buffer := buffer + ",";
      }
      buffer := buffer + keys[i];
      buffer := buffer + "=";
      buffer := buffer + "\"";
      buffer := buffer + values[i];
      buffer := buffer + "\"";
      assert keys[..i + 1][..i] == keys[..i] && values[..i + 1][..i] == values[..i];
      Appended(LabelKey(keys[..i], values[..i]), if i > 0 then "," else "", keys[i], values[i]);
    }
    assert keys[..|keys|] == keys && values[..|keys|] == values;
    return Some(buffer);
  }

  /**
   A caller whose own label values hold no quote shares its metric with no other
   label values, whatever they hold.
   */
  lemma LabelKeyInjective(keys: seq<string>, v: seq<string>, w: seq<string>)
    requires |v| == |w| == |keys|
    requires forall i :: 0 <= i < |v| ==> Free(v[i], '"')
    ensures LabelKey(keys, v) == LabelKey(keys, w) <==> v == w
  {
    if LabelKey(keys, v) == LabelKey(keys, w) {
      QuotesInKey(keys, v);
      QuotesInKey(keys, w);
      NoQuotes(v);
      NoQuotes(w);
      QuoteFreeInjective(keys, v, w);
    }
  }

  function Quotes(v: seq<string>): nat {
    if v == [] then 0 else Quotes(v[..|v| - 1]) + Count(v[|v| - 1], '"')
  }

  /** The labels hold two quotes per key besides those of keys and values. */
  lemma {:induction false} QuotesInKey(keys: seq<string>, v: seq<string>)
    requires |v| == |keys|
    ensures Count(LabelKey(keys, v), '"') == Quotes(keys) + Quotes(v) + 2 * |keys|
  {
    if keys != [] {
      var n := |keys| - 1;
      QuotesInKey(keys[..n], v[..n]);
      var head := LabelKey(keys[..n], v[..n]);
      var comma := if n > 0 then "," else "";
      CountAppend(head + comma + keys[n] + "=\"" + v[n], "\"", '"');
      CountAppend(head + comma + keys[n] + "=\"", v[n], '"');
      CountAppend(head + comma + keys[n], "=\"", '"');
      CountAppend(head + comma, keys[n], '"');
      CountAppend(head, comma, '"');
    }
  }

  lemma {:induction false} NoQuotes(v: seq<string>)
    ensures Quotes(v) == 0 <==> forall i :: 0 <= i < |v| ==> Free(v[i], '"')
  {
    if v != [] {
      NoQuotes(v[..|v| - 1]);
      CountZero(v[|v| - 1], '"');
    }
  }

  lemma {:induction false} QuoteFreeInjective(keys: seq<string>, v: seq<string>, w: seq<string>)
    requires |v| == |w| == |keys|
    requires forall i :: 0 <= i < |v| ==> Free(v[i], '"') && Free(w[i], '"')
    requires LabelKey(keys, v) == LabelKey(keys, w)
    ensures v == w
  {
    if keys != [] {
      var n := |keys| - 1;
      var pv := LabelKey(keys[..n], v[..n]) + (if n > 0 then "," else "") + keys[n] + "=";
      var pw := LabelKey(keys[..n], w[..n]) + (if n > 0 then "," else "") + keys[n] + "=";
      var tv, tw := pv + ['"'] + v[n], pw + ['"'] + w[n];
      assert LabelKey(keys, v) == tv + ['"'] && LabelKey(keys, w) == tw + ['"'];
      assert tv == LabelKey(keys, v)[..|tv|] && tw == LabelKey(keys, w)[..|tw|];
      CutLast(pv, pw, '"', v[n], w[n]);
      var end := (if n > 0 then "," else "") + keys[n] + "=";
      assert pv == LabelKey(keys[..n], v[..n]) + end && pw == LabelKey(keys[..n], w[..n]) + end;
      assert LabelKey(keys[..n], v[..n]) == pv[..|pv| - |end|];
      QuoteFreeInjective(keys[..n], v[..n], w[..n]);
      assert v == v[..n] + [v[n]] && w == w[..n] + [w[n]];
    }
  }

  lemma TwoLabels(k: string, l: string, p: string, q: string)
    ensures LabelKey([k, l], [p, q]) == (k + "=\"") + p + ("\"" + "," + l + "=\"") + q + "\""
  {
    assert [k, l][..1] == [k] && [p, q][..1] == [p] && [k][..0] == [] && [p][..0] == [];
    assert LabelKey([k], [p]) == k + "=\"" + p + "\"";
  }

  /** With quotes in the values two different label lists can share a metric. */
  lemma QuotesCollide(k: string, l: string, x: string, y: string, z: string)
    ensures var between := "\"" + "," + l + "=\"";
      LabelKey([k, l], [x + between + y, z]) == LabelKey([k, l], [x, y + between + z])
  {
    var between := "\"" + "," + l + "=\"";
    TwoLabels(k, l, x + between + y, z);
    TwoLabels(k, l, x, y + between + z);
    assert (k + "=\"") + (x + between + y) + between + z + "\"" == (k + "=\"") + x + between + (y + between + z) + "\"";
  }

  /** Labels that agree on a prefix of the keys and have the same values for the others agree. */
  lemma {:induction false} SameTail(keys: seq<string>, v: seq<string>, w: seq<string>, m: nat)
    requires |v| == |w| == |keys| && m <= |keys|
    requires LabelKey(keys[..m], v[..m]) == LabelKey(keys[..m], w[..m]) && v[m..] == w[m..]
    ensures LabelKey(keys, v) == LabelKey(keys, w)
  {
    var n := |keys| - 1;
    if m == |keys| {
      assert keys[..m] == keys && v[..m] == v && w[..m] == w;
    } else {
      assert keys[..n][..m] == keys[..m] && v[..n][..m] == v[..m] && w[..n][..m] == w[..m];
      assert v[n] == v[m..][n - m] == w[m..][n - m] == w[n];
      assert v[..n][m..] == v[m..][..n - m] == w[m..][..n - m] == w[..n][m..];
      SameTail(keys[..n], v[..n], w[..n], m);
    }
  }

  ghost predicate Separates(keys: seq<string>) {
    forall v: seq<string>, w: seq<string> ::
      |v| == |w| == |keys| && LabelKey(keys, v) == LabelKey(keys, w) ==> v == w
  }

  /** A definition tells all label values apart if and only if it has at most one key. */
  lemma SeparatesIff(keys: seq<string>)
    ensures Separates(keys) <==> |keys| <= 1
  {
    if |keys| > 1 {
      var between := "\"" + "," + keys[1] + "=\"";
      var tail := seq(|keys| - 2, _ => "");
      var v, w := ["" + between + "", ""] + tail, ["", "" + between + ""] + tail;
      QuotesCollide(keys[0], keys[1], "", "", "");
      assert keys[..2] == [keys[0], keys[1]] && v[2..] == tail == w[2..];
      assert v[..2] == ["" + between + "", ""] && w[..2] == ["", "" + between + ""];
      SameTail(keys, v, w, 2);
      assert v[0] != w[0];
    } else {
      forall v: seq<string>, w: seq<string> | |v| == |w| == |keys| && LabelKey(keys, v) == LabelKey(keys, w)
        ensures v == w
      {
        if |keys| == 1 {
          var head := keys[0] + "=\"";
          assert keys[..0] == v[..0] == w[..0] == [];
          assert LabelKey(keys, v) == head + v[0] + "\"" && LabelKey(keys, w) == head + w[0] + "\"";
          assert v[0] == (head + v[0] + "\"")[|head|..|head| + |v[0]|];
          assert w[0] == (head + w[0] + "\"")[|head|..|head| + |w[0]|];
        }
      }
    }
  }

  lemma Appended(head: string, comma: string, key: string, value: string)
    ensures ((((head + comma) + key) + "=") + "\"") + value + "\"" == head + comma + key + "=\"" + value + "\""
  {
    assert head + comma + key + "=\"" == ((head + comma) + key) + "=" + "\"";
  }

  // ---------------------------------------------------------------- one definition

  /** The LRU order, the evicted keys and the metrics of one definition. */
  datatype Store = Store(order: seq<string>, evicted: set<string>, datas: map<string, Metric>)

  function TouchedOrder(order: seq<string>, size: nat, key: string): seq<string> {
    Kept(Touched(order, key), size)
  }

  function TouchedEvicted(order: seq<string>, evicted: set<string>, size: nat, key: string): set<string> {
    (if key in order then evicted else evicted - {key}) + Dropped(Touched(order, key), size)
  }

  /**
   One update. A metric is made only when datas has none; an unknown type is
   refused after the cache already took the key, and so is a negative value of a
   counter, which by then is made.
   */
  function Updated(st: Store, size: nat, kind: MetricType, key: string, value: real): Store {
    Store(TouchedOrder(st.order, size, key),
          TouchedEvicted(st.order, st.evicted, size, key),
          if key in st.datas then st.datas[key := Bumped(st.datas[key], value)]
          else if kind.OtherType? then st.datas
          else st.datas[key := Bumped(NewMetric(kind), value)])
  }

  /** The clean-up of an export. */
  function Exported(st: Store): Store {
    if st.datas == map[] then st
    else Store(st.order, {}, map k | k in st.datas && k in st.order :: st.datas[k])
  }

  class LruMetrics {
    var datas: map<string, Metric>
    const labelsToTags: Cache<()>

    ghost predicate Valid()
      reads this, labelsToTags
    {
      labelsToTags.Valid()
    }

    ghost function View(): Store
      reads this, labelsToTags
    {
      Store(labelsToTags.order, labelsToTags.evictedItems.Keys, datas)
    }

    constructor (cacheSize: nat)
      requires cacheSize > 0
      ensures Valid() && fresh(labelsToTags) && labelsToTags.size == cacheSize
      ensures View() == Store([], {}, map[])
    {
      datas := map[];
      labelsToTags := new Cache<()>(cacheSize);
    }

    method UpdateMetric(kind: MetricType, keys: seq<string>, labelValues: seq<string>, value: real)
      returns (outcome: Outcome)
      requires Valid()
      modifies this, labelsToTags
      ensures Valid()
      ensures outcome.WrongValueCount? <==> |labelValues| != |keys|
      ensures outcome.WrongValueCount? ==> View() == old(View())
      ensures !outcome.WrongValueCount? ==>
        View() == Updated(old(View()), labelsToTags.size, kind, LabelKey(keys, labelValues), value)
      ensures outcome.UnknownMetricType? <==>
        |labelValues| == |keys| && kind.OtherType? && LabelKey(keys, labelValues) !in old(datas)
      ensures outcome.CounterDecreased? <==>
        && |labelValues| == |keys| && value < 0.0
        && var key := LabelKey(keys, labelValues);
           if key in old(datas) then old(datas)[key].CounterTotal? else kind.CounterType?
    {
      var built := BuildLabelKey(keys, labelValues);
      if built.None? {
        return WrongValueCount;
      }
      var key := built.value;
      Touch(key);
      if key !in datas {
        if kind.OtherType? {
          return UnknownMetricType;
        }
        datas := datas[key := NewMetric(kind)];
      }
      var metric := datas[key];
      if Refuses(metric, value) {
        return CounterDecreased;
      }
      datas := datas[key := Bumped(metric, value)];
      return Done;
    }

    /** The key becomes the newest of the cache, found, revived or new. */
    method Touch(key: string)
      requires Valid()
      modifies labelsToTags
      ensures Valid()
      ensures labelsToTags.order == TouchedOrder(old(labelsToTags.order), labelsToTags.size, key)
      ensures labelsToTags.evictedItems.Keys ==
        TouchedEvicted(old(labelsToTags.order), old(labelsToTags.evictedItems.Keys), labelsToTags.size, key)
    {
      ghost var order, evicted := labelsToTags.order, labelsToTags.evictedItems.Keys;
      TouchedKeeps(order, key, labelsToTags.size);
      assert key in labelsToTags.Contents() <==> key in order || key in evicted;
      assert key !in evicted ==> evicted - {key} == evicted;
      var tag := labelsToTags.Get(key);
      if tag.None? {
        var _ := labelsToTags.Add(key, ());
      }
    }

    /** GetMetrics and BuildPromWriteRequest: write every metric, then drop what the LRU has lost. */
    method Export() returns (written: map<string, Sample>)
      requires Valid()
      modifies this, labelsToTags`evictedItems
      ensures Valid() && labelsToTags.order == old(labelsToTags.order)
      ensures written == map k | k in old(datas) :: SampleOf(old(datas)[k])
      ensures View() == Exported(old(View()))
    {
      written := map[];
      if |datas| > 0 {
        written := WriteAll();
        labelsToTags.RemoveEvictedItems();
        CleanUp();
      }
    }

    method WriteAll() returns (written: map<string, Sample>)
      ensures written == map k | k in datas :: SampleOf(datas[k])
    {
      written := map[];
      var todo := datas.Keys;
      while todo != {}
        invariant todo <= datas.Keys
        invariant forall k :: k in written <==> k in datas && k !in todo
        invariant forall k :: k in written ==> written[k] == SampleOf(datas[k])
      {
        var labelKey :| labelKey in todo;
        written := written[labelKey := SampleOf(datas[labelKey])];
        todo := todo - {labelKey};
      }
    }

    method CleanUp()
      requires Valid()
      modifies this`datas
      ensures datas == map k | k in old(datas) && k in labelsToTags.order :: old(datas)[k]
    {
      ghost var all := datas;
      var todo := datas.Keys;
      while todo != {}
        invariant todo <= datas.Keys <= all.Keys
        invariant forall k :: k in datas ==> datas[k] == all[k]
        invariant forall k :: k in all ==> (k in datas <==> k in todo || k in labelsToTags.order)
      {
        var key :| key in todo;
        var kept := labelsToTags.Contains(key);
        if !kept {
          datas := datas - {key};
        }
        todo := todo - {key};
      }
    }
  }

  // ---------------------------------------------------------------- runs

  datatype Event = Update(key: string, value: real) | Export

  function Step(size: nat, kind: MetricType, st: Store, e: Event): Store {
    match e
    case Update(key, value) => Updated(st, size, kind, key, value)
    case Export => Exported(st)
  }

  function Run(size: nat, kind: MetricType, es: seq<Event>): Store {
    if es == [] then Store([], {}, map[])
    else Step(size, kind, Run(size, kind, es[..|es| - 1]), es[|es| - 1])
  }

  /** datas holds the LRU keys and the evicted keys and nothing else. */
  ghost predicate Agrees(st: Store, size: nat) {
    && NoDup(st.order) && |st.order| <= size
    && (forall k :: k in st.evicted ==> k !in st.order)
    && (forall k :: k in st.datas <==> k in st.order || k in st.evicted)
  }

  lemma UpdatedAgrees(st: Store, size: nat, kind: MetricType, key: string, value: real)
    requires size > 0 && !kind.OtherType? && Agrees(st, size)
    ensures Agrees(Updated(st, size, kind, key, value), size)
  {
    TouchedKeeps(st.order, key, size);
  }

  /** In every reachable state of a known type the keys of datas are the disjoint union of LRU and evicted keys. */
  lemma {:induction false} RunAgrees(size: nat, kind: MetricType, es: seq<Event>)
    requires size > 0 && !kind.OtherType?
    ensures Agrees(Run(size, kind, es), size)
  {
    if es != [] {
      var st := Run(size, kind, es[..|es| - 1]);
      RunAgrees(size, kind, es[..|es| - 1]);
      match es[|es| - 1]
      case Update(key, value) => UpdatedAgrees(st, size, kind, key, value);
      case Export =>
    }
  }

  /** Right after an export, datas and the LRU have the same keys and no evicted item is left. */
  lemma ExportMatchesLru(size: nat, kind: MetricType, es: seq<Event>)
    requires size > 0 && !kind.OtherType?
    ensures var st := Run(size, kind, es + [Export]);
      st.evicted == {} && forall k :: k in st.datas <==> k in st.order
  {
    RunAgrees(size, kind, es);
    assert (es + [Export])[..|es|] == es;
    var st := Run(size, kind, es);
    if st.datas == map[] {
      assert forall k :: k in st.evicted ==> k in st.datas;
    }
  }

  // ---------------------------------------------------------------- recency

  /** The position of the last update of the key, -1 when it has none. */
  function LastUse(es: seq<Event>, key: string): int {
    if es == [] then -1
    else if es[|es| - 1].Update? && es[|es| - 1].key == key then |es| - 1
    else LastUse(es[..|es| - 1], key)
  }

  /**
   The LRU of a history: its keys were used, newest first, and a used key
   outside it is older than every key inside and finds the LRU full.
   */
  ghost predicate HoldsNewest(order: seq<string>, size: nat, es: seq<Event>) {
    && NoDup(order) && |order| <= size
    && (forall i :: 0 <= i < |order| ==> LastUse(es, order[i]) >= 0)
    && (forall i, j :: 0 <= i < j < |order| ==> LastUse(es, order[i]) > LastUse(es, order[j]))
    && (forall k :: LastUse(es, k) >= 0 && k !in order ==>
         |order| == size && forall i :: 0 <= i < size ==> LastUse(es, k) < LastUse(es, order[i]))
  }

  lemma {:induction false} LastUseBelow(es: seq<Event>, key: string)
    ensures -1 <= LastUse(es, key) < |es|
  {
    if es != [] {
      LastUseBelow(es[..|es| - 1], key);
    }
  }

  /** Removing one key keeps the order of the others. */
  lemma {:induction false} WithoutSorted(s: seq<string>, key: string, es: seq<Event>)
    requires NoDup(s)
    requires forall i, j :: 0 <= i < j < |s| ==> LastUse(es, s[i]) > LastUse(es, s[j])
    ensures var w := Without(s, key);
      forall i, j :: 0 <= i < j < |w| ==> LastUse(es, w[i]) > LastUse(es, w[j])
  {
    if s != [] {
      var r := s[1..];
      WithoutSorted(r, key, es);
      WithoutKeeps(r, key);
      WithoutKeeps(s, key);
      var w := Without(r, key);
      forall j | 0 <= j < |w| && s[0] != key
        ensures LastUse(es, s[0]) > LastUse(es, w[j])
      {
        assert w[j] in r;
      }
    }
  }

  lemma LastUseSnoc(es: seq<Event>, key: string, value: real, k: string)
    ensures LastUse(es + [Update(key, value)], k) == if k == key then |es| else LastUse(es, k)
    ensures LastUse(es, k) < |es|
  {
    assert (es + [Update(key, value)])[..|es|] == es;
    LastUseBelow(es, k);
  }

  lemma TouchedSorted(order: seq<string>, size: nat, es: seq<Event>, key: string, value: real)
    requires size > 0 && HoldsNewest(order, size, es)
    ensures var t, fs := Touched(order, key), es + [Update(key, value)];
      && (forall i :: 0 <= i < |t| ==> LastUse(fs, t[i]) >= 0)
      && (forall i, j :: 0 <= i < j < |t| ==> LastUse(fs, t[i]) > LastUse(fs, t[j]))
  {
    var rest := Without(order, key);
    var t, fs := Touched(order, key), es + [Update(key, value)];
    WithoutKeeps(order, key);
    WithoutSorted(order, key, es);
    forall i | 0 < i < |t|
      ensures LastUse(fs, t[i]) == LastUse(es, rest[i - 1]) && 0 <= LastUse(fs, t[i]) < |es|
    {
      assert t[i] == rest[i - 1] && rest[i - 1] in rest;
      LastUseSnoc(es, key, value, t[i]);
    }
    LastUseSnoc(es, key, value, key);
    forall i, j | 0 <= i < j < |t|
      ensures LastUse(fs, t[i]) > LastUse(fs, t[j])
    {
      if i > 0 {
        assert LastUse(es, rest[i - 1]) > LastUse(es, rest[j - 1]);
      }
    }
  }

  lemma UpdateHoldsNewest(order: seq<string>, size: nat, es: seq<Event>, key: string, value: real)
    requires size > 0 && HoldsNewest(order, size, es)
    ensures HoldsNewest(Kept(Touched(order, key), size), size, es + [Update(key, value)])
  {
    var fs := es + [Update(key, value)];
    TouchedKeeps(order, key, size);
    TouchedSorted(order, size, es, key, value);
    var touched, kept := Touched(order, key), Kept(Touched(order, key), size);
    forall k | LastUse(fs, k) >= 0 && k !in kept
      ensures |kept| == size && forall i :: 0 <= i < size ==> LastUse(fs, k) < LastUse(fs, kept[i])
    {
      LastUseSnoc(es, key, value, k);
      if k in touched {
        assert k == touched[size];
      } else {
        assert k !in order && |order| == size;
        forall i | 0 <= i < size
          ensures LastUse(fs, k) < LastUse(fs, kept[i])
        {
          LastUseSnoc(es, key, value, kept[i]);
          assert kept[i] in touched;
          if kept[i] != key {
            assert kept[i] in order;
          }
        }
      }
    }
  }

  /** In every reachable state the LRU holds exactly the most recently updated distinct keys, newest first. */
  lemma {:induction false} LruHoldsNewest(size: nat, kind: MetricType, es: seq<Event>)
    requires size > 0
    ensures HoldsNewest(Run(size, kind, es).order, size, es)
  {
    if es != [] {
      var init, e := es[..|es| - 1], es[|es| - 1];
      LruHoldsNewest(size, kind, init);
      assert es == init + [e];
      match e
      case Update(key, value) => UpdateHoldsNewest(Run(size, kind, init).order, size, init, key, value);
      case Export => ExportHoldsNewest(Run(size, kind, init).order, size, init);
    }
  }

  lemma ExportHoldsNewest(order: seq<string>, size: nat, es: seq<Event>)
    requires HoldsNewest(order, size, es)
    ensures HoldsNewest(order, size, es + [Export])
  {
    var fs := es + [Export];
    assert fs[..|es|] == es;
    assert forall k :: LastUse(fs, k) == LastUse(es, k);
  }

  // ---------------------------------------------------------------- values

  function ValuesOf(es: seq<Event>, key: string): seq<real> {
    if es == [] then []
    else
      var e := es[|es| - 1];
      ValuesOf(es[..|es| - 1], key) + (if e.Update? && e.key == key then [e.value] else [])
  }

  /** Where the current life of the key begins: after the last export that found it outside the LRU. */
  ghost function Birth(size: nat, kind: MetricType, es: seq<Event>, key: string): (b: nat)
    ensures b <= |es|
  {
    if es == [] then 0
    else
      var init := es[..|es| - 1];
      if es[|es| - 1].Export? && key !in Run(size, kind, init).order then |es|
      else Birth(size, kind, init, key)
  }

  /** A new metric after some updates. */
  function Accumulated(kind: MetricType, values: seq<real>): Metric
    requires !kind.OtherType?
  {
    if values == [] then NewMetric(kind)
    else Bumped(Accumulated(kind, values[..|values| - 1]), values[|values| - 1])
  }

  /** The metric of a key is made by the given updates; without updates there is none. */
  ghost predicate HasLife(kind: MetricType, st: Store, key: string, life: seq<real>)
    requires !kind.OtherType?
  {
    (key in st.datas <==> life != []) && (key in st.datas ==> st.datas[key] == Accumulated(kind, life))
  }

  ghost function Life(size: nat, kind: MetricType, es: seq<Event>, key: string): seq<real> {
    ValuesOf(es[Birth(size, kind, es, key)..], key)
  }

  /**
   A metric holds every update of its key since the life of the key began, in
   order; a key has a metric exactly when that life has an update. Evictions
   and revivals in between leave no trace.
   */
  lemma {:induction false} MetricHasItsLife(size: nat, kind: MetricType, es: seq<Event>, key: string)
    requires size > 0 && !kind.OtherType?
    ensures HasLife(kind, Run(size, kind, es), key, ValuesOf(es[Birth(size, kind, es, key)..], key))
  {
    if es != [] {
      var init, e := es[..|es| - 1], es[|es| - 1];
      MetricHasItsLife(size, kind, init, key);
      RunAgrees(size, kind, init);
      StepLife(size, kind, Run(size, kind, init), e, key, Life(size, kind, init, key));
      LifeStep(size, kind, init, e, key);
      assert es == init + [e];
    }
  }

  function Continued(st: Store, e: Event, key: string, life: seq<real>): seq<real> {
    if e.Export? then (if key in st.order then life else [])
    else life + (if e.key == key then [e.value] else [])
  }

  /** How one event changes the metric of a key. */
  lemma StepLife(size: nat, kind: MetricType, st: Store, e: Event, key: string, life: seq<real>)
    requires size > 0 && !kind.OtherType? && Agrees(st, size) && HasLife(kind, st, key, life)
    ensures HasLife(kind, Step(size, kind, st, e), key, Continued(st, e, key, life))
  {
    assert life + [] == life;
    if e.Update? {
      assert (life + [e.value])[..|life|] == life;
    }
  }

  /** How one event changes the life of a key. */
  lemma LifeStep(size: nat, kind: MetricType, es: seq<Event>, e: Event, key: string)
    ensures Life(size, kind, es + [e], key) == Continued(Run(size, kind, es), e, key, Life(size, kind, es, key))
  {
    var all, b := es + [e], Birth(size, kind, es, key);
    assert all[..|es|] == es && all[|es|] == e;
    if e.Export? && key !in Run(size, kind, es).order {
      assert all[|all|..] == [];
    } else {
      assert all[b..] == es[b..] + [e];
      ValuesSnoc(es[b..], e, key);
    }
  }

  lemma ValuesSnoc(es: seq<Event>, e: Event, key: string)
    ensures ValuesOf(es + [e], key) == ValuesOf(es, key) + (if e.Update? && e.key == key then [e.value] else [])
  {
    assert (es + [e])[..|es|] == es;
  }

  /**
   An export writes every update made since the export before, on top of those
   before that the key's life still holds.
   */
  lemma NothingLost(size: nat, kind: MetricType, es: seq<Event>, from: nat, key: string)
    requires size > 0 && !kind.OtherType? && from <= |es|
    requires forall i :: from <= i < |es| ==> es[i].Update?
    requires ValuesOf(es[from..], key) != []
    ensures var written := Run(size, kind, es).datas;
      var b := Birth(size, kind, es, key);
      && b <= from && key in written
      && written[key] == Accumulated(kind, ValuesOf(es[b..from], key) + ValuesOf(es[from..], key))
  {
    MetricHasItsLife(size, kind, es, key);
    BirthBefore(size, kind, es, from, key);
    ValuesSplit(es, Birth(size, kind, es, key), from, key);
  }

  lemma ValuesSplit(es: seq<Event>, b: nat, from: nat, key: string)
    requires b <= from <= |es|
    ensures ValuesOf(es[b..], key) == ValuesOf(es[b..from], key) + ValuesOf(es[from..], key)
  {
    assert es[b..] == es[b..from] + es[from..];
    ValuesAppend(es[b..from], es[from..], key);
  }

  lemma {:induction false} BirthBefore(size: nat, kind: MetricType, es: seq<Event>, from: nat, key: string)
    requires from <= |es| && forall i :: from <= i < |es| ==> es[i].Update?
    ensures Birth(size, kind, es, key) <= from
  {
    if from < |es| {
      BirthBefore(size, kind, es[..|es| - 1], from, key);
    }
  }

  lemma {:induction false} ValuesAppend(a: seq<Event>, b: seq<Event>, key: string)
    ensures ValuesOf(a + b, key) == ValuesOf(a, key) + ValuesOf(b, key)
  {
    if b == [] {
      assert a + b == a;
    } else {
      var ab := a + b;
      assert ab[..|ab| - 1] == a + b[..|b| - 1];
      ValuesAppend(a, b[..|b| - 1], key);
    }
  }

  /** The sum of the values that a metric of the type takes. */
  function Sum(kind: MetricType, values: seq<real>): real {
    if values == [] then 0.0
    else
      var n := |values| - 1;
      Sum(kind, values[..n]) + (if kind.GaugeType? || values[n] >= 0.0 then values[n] else 0.0)
  }

  lemma {:induction false} SumAppend(kind: MetricType, a: seq<real>, b: seq<real>)
    ensures Sum(kind, a + b) == Sum(kind, a) + Sum(kind, b)
  {
    if b == [] {
      assert a + b == a;
    } else {
      var ab := a + b;
      assert ab[..|ab| - 1] == a + b[..|b| - 1];
      SumAppend(kind, a, b[..|b| - 1]);
    }
  }

  /** One value: a counter takes it unless it is negative, a gauge as it is. */
  lemma SumOne(kind: MetricType, value: real)
    ensures Sum(kind, [value]) == if value < 0.0 && !kind.GaugeType? then 0.0 else value
  {
    assert [value][..0] == [];
  }

  function Numbers(values: seq<real>): seq<Histogram.Value> {
    seq(|values|, i requires 0 <= i < |values| => Histogram.Num(values[i]))
  }

  /**
   What the updates of a metric amount to: a histogram has observed them, a
   counter or gauge has added them up, and what a counter refuses is not in it.
   */
  lemma {:induction false} AccumulatedIs(kind: MetricType, values: seq<real>)
    requires !kind.OtherType?
    ensures var m := Accumulated(kind, values);
      match kind
      case HistogramType => m == Buckets(Histogram.Observed(Numbers(values)))
      case CounterType => m == CounterTotal(Sum(kind, values))
      case _ => m == GaugeTotal(Sum(kind, values))
  {
    if values != [] {
      AccumulatedIs(kind, values[..|values| - 1]);
      var xs := Numbers(values);
      assert xs[..|xs| - 1] == Numbers(values[..|values| - 1]);
    }
  }

  /**
   Two exports in a row: a counter or gauge that the first one finds in the LRU
   keeps counting, so the second value exceeds the first by the updates in
   between; one that it finds outside starts again from those updates alone.
   */
  lemma CounterBetweenExports(size: nat, kind: MetricType, es: seq<Event>, us: seq<Event>, key: string)
    requires size > 0 && (kind.CounterType? || kind.GaugeType?)
    requires forall i :: 0 <= i < |us| ==> us[i].Update?
    requires key in Run(size, kind, es).datas && key in Run(size, kind, es + [Export] + us).datas
    ensures var first, second := Run(size, kind, es).datas[key], Run(size, kind, es + [Export] + us).datas[key];
      && first.Buckets? == second.Buckets? == false
      && second.total == (if key in Run(size, kind, es).order then first.total else 0.0) + Sum(kind, ValuesOf(us, key))
  {
    MetricHasItsLife(size, kind, es, key);
    MetricHasItsLife(size, kind, es + [Export] + us, key);
    LifeStep(size, kind, es, Export, key);
    LifeGrows(size, kind, es + [Export], us, key);
    AccumulatedIs(kind, Life(size, kind, es, key));
    AccumulatedIs(kind, Life(size, kind, es + [Export] + us, key));
    SumAppend(kind, Life(size, kind, es + [Export], key), ValuesOf(us, key));
  }

  /** Updates alone only extend the life of a key. */
  lemma {:induction false} LifeGrows(size: nat, kind: MetricType, es: seq<Event>, us: seq<Event>, key: string)
    requires forall i :: 0 <= i < |us| ==> us[i].Update?
    ensures Life(size, kind, es + us, key) == Life(size, kind, es, key) + ValuesOf(us, key)
  {
    if us == [] {
      assert es + us == es;
    } else {
      var init, u := us[..|us| - 1], us[|us| - 1];
      LifeGrows(size, kind, es, init, key);
      assert (es + init) + [u] == es + us && init + [u] == us;
      UpdateGrows(size, kind, es + init, u, key, Life(size, kind, es, key), init);
    }
  }

  lemma UpdateGrows(size: nat, kind: MetricType, es: seq<Event>, u: Event, key: string, life: seq<real>, us: seq<Event>)
    requires u.Update? && Life(size, kind, es, key) == life + ValuesOf(us, key)
    ensures Life(size, kind, es + [u], key) == life + ValuesOf(us + [u], key)
  {
    var more := if u.key == key then [u.value] else [];
    LifeStep(size, kind, es, u, key);
    ValuesSnoc(us, u, key);
    Regroup(life, ValuesOf(us, key), more);
  }

  /**
   With an unknown metric type nothing is ever written and nothing is ever
   cleaned: every key of the whole history stays in the LRU or the evicted items.
   */
  lemma {:induction false} UnknownTypeKeepsKeys(size: nat, es: seq<Event>)
    requires size > 0
    ensures var st := Run(size, OtherType, es);
      st.datas == map[] && forall k :: k in st.order || k in st.evicted <==> LastUse(es, k) >= 0
  {
    if es != [] {
      var init, e := es[..|es| - 1], es[|es| - 1];
      UnknownTypeKeepsKeys(size, init);
      LruHoldsNewest(size, OtherType, init);
      if e.Update? {
        TouchedKeeps(Run(size, OtherType, init).order, e.key, size);
      }
    }
  }
}
