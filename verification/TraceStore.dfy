/**
 The traces of a report task on their way to the database (sendProfiledSpanTrace,
 mergeTraces, storeTraces and storeTrace of pkg/analyzer/analyzer.go): what was
 stored is marked on the trace, and a retry adds traces that came since, told
 apart by their span id. Here one worker acts at a time; TraceRace.dfy lets the
 workers of the tasks that share the traces interleave.
 */
module TraceStore {
  import opened Basics

  /** One trace object; id tells objects apart. */
  datatype Item = Item(id: nat, spanId: string, direct: bool)

  function SpanIds(ts: seq<Item>): set<string> {
    set t | t in ts :: t.spanId
  }

  /** The traces whose span is not among the known ones, in order. */
  function Unknown(known: set<string>, news: seq<Item>): seq<Item> {
    if news == [] then []
    else
      var n := |news| - 1;
      Unknown(known, news[..n]) + (if news[n].spanId in known then [] else [news[n]])
  }

  lemma {:induction false} UnknownHas(known: set<string>, news: seq<Item>)
    ensures forall t :: t in Unknown(known, news) <==> t in news && t.spanId !in known
  {
    if news != [] {
      var n := |news| - 1;
      assert news == news[..n] + [news[n]];
      UnknownHas(known, news[..n]);
    }
  }

  /** What is stored of some traces when log was stored before: each once, all or only the direct ones. */
  function ToStore(log: seq<Item>, ts: seq<Item>, all: bool): seq<Item> {
    if ts == [] then []
    else
      var n := |ts| - 1;
      var before := ToStore(log, ts[..n], all);
      if (all || ts[n].direct) && ts[n] !in log && ts[n] !in before then before + [ts[n]] else before
  }

  lemma {:induction false} ToStoreHas(log: seq<Item>, ts: seq<Item>, all: bool)
    ensures forall t :: t in ToStore(log, ts, all) <==> t in ts && t !in log && (all || t.direct)
  {
    if ts != [] {
      var n := |ts| - 1;
      assert ts == ts[..n] + [ts[n]];
      ToStoreHas(log, ts[..n], all);
    }
  }

  /** The log when the traces in done have been stored. */
  ghost predicate Stored(log: seq<Item>, done: seq<Item>, all: bool, logNow: seq<Item>) {
    logNow == log + ToStore(log, done, all)
  }

  lemma StoredStep(log: seq<Item>, done: seq<Item>, all: bool, logNow: seq<Item>, t: Item)
    requires Stored(log, done, all, logNow)
    ensures Stored(log, done + [t], all, if t in logNow || !(all || t.direct) then logNow else logNow + [t])
  {
    assert (done + [t])[..|done|] == done;
  }

  /** Traces and log when the new traces in done have been merged. */
  ghost predicate Merged(known: set<string>, traces: seq<Item>, log: seq<Item>, done: seq<Item>,
                         tracesNow: seq<Item>, logNow: seq<Item>) {
    tracesNow == traces + Unknown(known, done) && Stored(log, Unknown(known, done), false, logNow)
  }

  lemma MergedStep(known: set<string>, traces: seq<Item>, log: seq<Item>, done: seq<Item>,
                   tracesNow: seq<Item>, logNow: seq<Item>, t: Item)
    requires Merged(known, traces, log, done, tracesNow, logNow)
    ensures Merged(known, traces, log, done + [t],
              if t.spanId in known then tracesNow else tracesNow + [t],
              if t.spanId in known || t in logNow || !t.direct then logNow else logNow + [t])
  {
    UnknownSnoc(known, done, t);
    StoredStep(log, Unknown(known, done), false, logNow, t);
  }

  lemma UnknownSnoc(known: set<string>, news: seq<Item>, t: Item)
    ensures Unknown(known, news + [t]) == if t.spanId in known then Unknown(known, news) else Unknown(known, news) + [t]
  {
    assert (news + [t])[..|news|] == news;
  }

  // ---------------------------------------------------------------- the objects

  class Trace {
    /** direct: profiled, or of a single span, so that it is stored without waiting for a report. */
    const item: Item
    const isSlow: bool
    var mutatedType: string
    var isSent: bool

    constructor (item: Item, isSlow: bool, mutatedType: string)
      ensures this.item == item && this.isSlow == isSlow && this.mutatedType == mutatedType && !isSent
    {
      this.item, this.isSlow, this.mutatedType, isSent := item, isSlow, mutatedType, false;
    }
  }

  function Items(ts: seq<Trace>): (r: seq<Item>)
    ensures |r| == |ts| && forall i :: 0 <= i < |r| ==> r[i] == ts[i].item
  {
    seq(|ts|, i requires 0 <= i < |ts| => ts[i].item)
  }

  function Objects(ts: seq<Trace>): set<Trace> {
    set t | t in ts
  }

  ghost predicate Within(ts: seq<Trace>, all: set<Trace>) {
    forall t :: t in ts ==> t in all
  }

  /** No two objects pass for the same. */
  ghost predicate Identified(ts: set<Trace>) {
    forall t, u :: t in ts && u in ts && t.item == u.item ==> t == u
  }

  /** The mark on each trace tells whether it was stored. */
  ghost predicate Marked(log: seq<Item>, ts: set<Trace>)
    reads ts
  {
    forall t :: t in ts ==> (t.isSent <==> t.item in log)
  }

  class Store {
    var log: seq<Item>

    constructor ()
      ensures log == []
    {
      log := [];
    }

    method StoreTrace(trace: Trace)
      modifies this, trace`isSent
      ensures trace.isSent
      ensures log == if old(trace.isSent) then old(log) else old(log) + [trace.item]
    {
      if !trace.isSent {
        trace.isSent := true;
        log := log + [trace.item];
      }
    }

    method StoreTraces(traces: seq<Trace>)
      requires Marked(log, Objects(traces)) && Identified(Objects(traces))
      modifies this, Objects(traces)`isSent
      ensures Marked(log, Objects(traces))
      ensures log == old(log) + ToStore(old(log), Items(traces), true)
    {
      ghost var before, items := log, Items(traces);
      for i := 0 to |traces|
        invariant Marked(log, Objects(traces))
        invariant Stored(before, items[..i], true, log)
      {
        StoredStep(before, items[..i], true, log, traces[i].item);
        assert items[..i + 1] == items[..i] + [traces[i].item];
        StoreTrace(traces[i]);
      }
      assert items[..|traces|] == items;
    }

    method SendProfiledSpanTrace(trace: Trace)
      modifies this, trace
      ensures trace.isSent == (old(trace.isSent) || trace.item.direct)
      ensures log == if old(trace.isSent) || !trace.item.direct then old(log) else old(log) + [trace.item]
      ensures trace.mutatedType ==
        if trace.item.direct && trace.isSlow && old(trace.mutatedType) == "" then "unknown" else old(trace.mutatedType)
    {
      if trace.item.direct {
        if trace.isSlow {
          if trace.mutatedType == "" {
            trace.mutatedType := "unknown";
          }
        }
        StoreTrace(trace);
      }
    }

    /** The first thing Consume does with the traces of an id. */
    method SendProfiled(traces: seq<Trace>)
      requires Marked(log, Objects(traces)) && Identified(Objects(traces))
      modifies this, Objects(traces)
      ensures Marked(log, Objects(traces))
      ensures log == old(log) + ToStore(old(log), Items(traces), false)
    {
      ghost var before, items := log, Items(traces);
      for i := 0 to |traces|
        invariant Marked(log, Objects(traces))
        invariant Stored(before, items[..i], false, log)
      {
        StoredStep(before, items[..i], false, log, traces[i].item);
        assert items[..i + 1] == items[..i] + [traces[i].item];
        SendProfiledSpanTrace(traces[i]);
      }
      assert items[..|traces|] == items;
    }
  }

  class Traces {
    var traces: seq<Trace>

    constructor (traces: seq<Trace>)
      ensures this.traces == traces
    {
      this.traces := traces;
    }

    method AddTrace(trace: Trace)
      modifies this
      ensures traces == old(traces) + [trace]
    {
      traces := traces + [trace];
    }
  }

  /**
   A retry takes over what the cache has by now. The new traces may be other
   objects for spans that are known, or the very same objects.
   */
  method MergeTraces(oldTraces: Traces, newTraces: seq<Trace>, store: Store)
    requires Marked(store.log, Objects(oldTraces.traces) + Objects(newTraces))
    requires Identified(Objects(oldTraces.traces) + Objects(newTraces))
    modifies oldTraces, store, Objects(newTraces)
    ensures Marked(store.log, old(Objects(oldTraces.traces)) + Objects(newTraces))
    ensures Within(oldTraces.traces, old(Objects(oldTraces.traces)) + Objects(newTraces))
    ensures var unknown := Unknown(SpanIds(old(Items(oldTraces.traces))), Items(newTraces));
      && Items(oldTraces.traces) == old(Items(oldTraces.traces)) + unknown
      && store.log == old(store.log) + ToStore(old(store.log), unknown, false)
  {
    var existTraces := CollectSpanIds(oldTraces.traces);
    ghost var all := Objects(oldTraces.traces) + Objects(newTraces);
    MergeUnknown(oldTraces, newTraces, existTraces, store, all);
  }

  /** The loop over the new traces. */
  method MergeUnknown(oldTraces: Traces, newTraces: seq<Trace>, existTraces: set<string>, store: Store,
                      ghost all: set<Trace>)
    requires Marked(store.log, all) && Identified(all) && Within(newTraces, all) && Within(oldTraces.traces, all)
    modifies oldTraces, store, Objects(newTraces)
    ensures Marked(store.log, all) && Within(oldTraces.traces, all)
    ensures Merged(existTraces, old(Items(oldTraces.traces)), old(store.log), Items(newTraces),
                   Items(oldTraces.traces), store.log)
  {
    ghost var log, first, items := store.log, Items(oldTraces.traces), Items(newTraces);
    for i := 0 to |newTraces|
      invariant Marked(store.log, all) && Within(oldTraces.traces, all)
      invariant Merged(existTraces, first, log, items[..i], Items(oldTraces.traces), store.log)
    {
      assert items[..i + 1] == items[..i] + [newTraces[i].item];
      MergeOne(oldTraces, newTraces[i], existTraces, store, all, first, log, items[..i]);
    }
    assert items[..|newTraces|] == items;
  }

  /** One turn of the loop, after the new traces in done. */
  method MergeOne(oldTraces: Traces, newTrace: Trace, existTraces: set<string>, store: Store, ghost all: set<Trace>,
                  ghost first: seq<Item>, ghost log: seq<Item>, ghost done: seq<Item>)
    requires Marked(store.log, all) && Identified(all) && newTrace in all && Within(oldTraces.traces, all)
    requires Merged(existTraces, first, log, done, Items(oldTraces.traces), store.log)
    modifies oldTraces, store, newTrace
    ensures Marked(store.log, all) && Within(oldTraces.traces, all)
    ensures Merged(existTraces, first, log, done + [newTrace.item], Items(oldTraces.traces), store.log)
  {
    MergedStep(existTraces, first, log, done, Items(oldTraces.traces), store.log, newTrace.item);
    if newTrace.item.spanId !in existTraces {
      SendNew(oldTraces, newTrace, store, all);
    }
  }

  method SendNew(oldTraces: Traces, newTrace: Trace, store: Store, ghost all: set<Trace>)
    requires Marked(store.log, all) && Identified(all) && newTrace in all && Within(oldTraces.traces, all)
    modifies oldTraces, store, newTrace
    ensures Marked(store.log, all) && Within(oldTraces.traces, all)
    ensures Items(oldTraces.traces) == old(Items(oldTraces.traces)) + [newTrace.item]
    ensures store.log ==
      if newTrace.item in old(store.log) || !newTrace.item.direct then old(store.log)
      else old(store.log) + [newTrace.item]
  {
    store.SendProfiledSpanTrace(newTrace);
    oldTraces.AddTrace(newTrace);
  }

  method CollectSpanIds(ts: seq<Trace>) returns (existTraces: set<string>)
    ensures existTraces == SpanIds(Items(ts))
  {
    existTraces := {};
    ghost var items := Items(ts);
    for i := 0 to |ts|
      invariant existTraces == SpanIds(items[..i])
    {
      assert items[..i + 1] == items[..i] + [items[i]];
      existTraces := existTraces + {ts[i].item.spanId};
    }
    assert items[..|ts|] == items;
  }

  // ---------------------------------------------------------------- runs

  /** The traces of an id first come in; a retry merges what the cache has by then; a report stores everything. */
  datatype Event = Direct | Merge(news: seq<Item>) | StoreAll

  datatype State = State(traces: seq<Item>, log: seq<Item>)

  function Step(s: State, e: Event): State {
    match e
    case Direct => s.(log := s.log + ToStore(s.log, s.traces, false))
    case Merge(news) =>
      var unknown := Unknown(SpanIds(s.traces), news);
      State(s.traces + unknown, s.log + ToStore(s.log, unknown, false))
    case StoreAll => s.(log := s.log + ToStore(s.log, s.traces, true))
  }

  function Run(start: seq<Item>, es: seq<Event>): State {
    if es == [] then State(start, []) else Step(Run(start, es[..|es| - 1]), es[|es| - 1])
  }

  lemma {:induction false} ToStoreNoDup(log: seq<Item>, ts: seq<Item>, all: bool)
    requires NoDup(log)
    ensures NoDup(log + ToStore(log, ts, all))
  {
    if ts == [] {
      assert log + [] == log;
    } else {
      ToStoreNoDup(log, ts[..|ts| - 1], all);
      var t, before := ts[|ts| - 1], ToStore(log, ts[..|ts| - 1], all);
      if ToStore(log, ts, all) != before {
        NoDupSnoc(log + before, t);
        assert log + before + [t] == log + (before + [t]);
      }
    }
  }

  lemma NoDupSnoc(s: seq<Item>, t: Item)
    requires NoDup(s) && t !in s
    ensures NoDup(s + [t])
  {
    assert forall i :: 0 <= i < |s| ==> s[i] in s;
  }

  lemma StepHas(s: State, e: Event)
    ensures forall t :: t in Step(s, e).traces <==>
      (t in s.traces || (e.Merge? && t in e.news && t.spanId !in SpanIds(s.traces)))
    ensures forall t :: t in Step(s, e).log <==>
      (t in s.log || (t in Step(s, e).traces && (e.StoreAll? || t.direct) &&
                      (e.Merge? ==> t in e.news && t.spanId !in SpanIds(s.traces))))
  {
    var ts := if e.Merge? then Unknown(SpanIds(s.traces), e.news) else s.traces;
    if e.Merge? {
      UnknownHas(SpanIds(s.traces), e.news);
    }
    ToStoreHas(s.log, ts, e.StoreAll?);
    ConcatHas(s.log, ToStore(s.log, ts, e.StoreAll?));
    ConcatHas(s.traces, ts);
  }

  lemma ConcatHas(a: seq<Item>, b: seq<Item>)
    ensures forall t :: t in a + b <==> t in a || t in b
  {
  }

  lemma {:induction false} SentHas(start: seq<Item>, es: seq<Event>)
    ensures NoDup(Run(start, es).log)
    ensures forall t :: t in Run(start, es).log ==> t in Run(start, es).traces
  {
    if es != [] {
      SentHas(start, es[..|es| - 1]);
      StepKeeps(Run(start, es[..|es| - 1]), es[|es| - 1]);
    }
  }

  lemma StepKeeps(s: State, e: Event)
    requires NoDup(s.log) && forall t :: t in s.log ==> t in s.traces
    ensures NoDup(Step(s, e).log) && forall t :: t in Step(s, e).log ==> t in Step(s, e).traces
  {
    StepHas(s, e);
    var ts := if e.Merge? then Unknown(SpanIds(s.traces), e.news) else s.traces;
    ToStoreNoDup(s.log, ts, e.StoreAll?);
    var v := Step(s, e);
    forall t | t in v.log
      ensures t in v.traces
    {
      assert t in s.log ==> t in s.traces;
    }
  }

  /** Different traces of the list are of different spans. */
  ghost predicate SpansApart(ts: seq<Item>) {
    forall t, u :: t in ts && u in ts && t.spanId == u.spanId ==> t == u
  }

  /** What the i-th event adds to the traces. */
  ghost function Added(start: seq<Item>, es: seq<Event>, i: nat): seq<Item>
    requires i < |es|
  {
    if es[i].Merge? then Unknown(SpanIds(Run(start, es[..i]).traces), es[i].news) else []
  }

  lemma ApartAfterMerge(traces: seq<Item>, news: seq<Item>)
    ensures var unknown := Unknown(SpanIds(traces), news);
      SpansApart(traces + unknown) <==> SpansApart(traces) && SpansApart(unknown)
  {
    var unknown := Unknown(SpanIds(traces), news);
    UnknownHas(SpanIds(traces), news);
    ConcatHas(traces, unknown);
    forall t, u | t in traces && u in unknown
      ensures t.spanId != u.spanId
    {
      var known := SpanIds(traces);
      assert t.spanId in known && u in Unknown(known, news) && u.spanId !in known;
    }
  }

  lemma ApartStep(s: State, e: Event)
    ensures SpansApart(Step(s, e).traces) <==>
      SpansApart(s.traces) && (e.Merge? ==> SpansApart(Unknown(SpanIds(s.traces), e.news)))
  {
    if e.Merge? {
      ApartAfterMerge(s.traces, e.news);
    }
  }

  /** No single event adds a span in two traces. */
  ghost predicate AnswersApart(start: seq<Item>, es: seq<Event>) {
    forall i: nat :: i < |es| ==> SpansApart(Added(start, es, i))
  }

  lemma AnswersApartSnoc(start: seq<Item>, es: seq<Event>)
    requires es != []
    ensures var n := |es| - 1;
      AnswersApart(start, es) <==> AnswersApart(start, es[..n]) && SpansApart(Added(start, es, n))
  {
    var n := |es| - 1;
    forall i: nat | i < n
      ensures SpansApart(Added(start, es[..n], i)) == SpansApart(Added(start, es, i))
    {
      assert es[..n][..i] == es[..i];
    }
  }

  /** A span can get two traces only in one answer of the cache: merging never adds a trace of a span that is known. */
  lemma {:induction false} ApartIff(start: seq<Item>, es: seq<Event>)
    ensures SpansApart(Run(start, es).traces) <==> SpansApart(start) && AnswersApart(start, es)
  {
    if es != [] {
      var n := |es| - 1;
      ApartIff(start, es[..n]);
      AnswersApartSnoc(start, es);
      ApartStep(Run(start, es[..n]), es[n]);
    }
  }

  /**
   However often the traces are sent, merged and stored, one worker at a time: no trace is stored
   twice, and after a report exactly the traces of the task are stored.
   */
  lemma StoredOnce(start: seq<Item>, es: seq<Event>)
    ensures var s := Run(start, es + [StoreAll]);
      && NoDup(s.log) && s.traces == Run(start, es).traces
      && forall t :: t in s.log <==> t in s.traces
  {
    var all := es + [StoreAll];
    assert all[..|es|] == es;
    var s := Run(start, es);
    SentHas(start, es);
    SentHas(start, all);
    ToStoreHas(s.log, s.traces, true);
  }

  /** And no span is stored twice if and only if the first traces and every merged answer hold no span in two traces. */
  lemma SpanStoredOnceIff(start: seq<Item>, es: seq<Event>)
    ensures SpansApart(Run(start, es + [StoreAll]).log) <==> SpansApart(start) && AnswersApart(start, es)
  {
    StoredOnce(start, es);
    ApartIff(start, es);
    ApartSame(Run(start, es + [StoreAll]).log, Run(start, es).traces);
  }

  lemma ApartSame(a: seq<Item>, b: seq<Item>)
    requires forall t :: t in a <==> t in b
    ensures SpansApart(a) <==> SpansApart(b)
  {
  }

  /** Before any report the direct traces of the task are stored and no other. */
  lemma {:induction false} DirectStored(start: seq<Item>, es: seq<Event>)
    requires es != [] && es[0].Direct? && forall i :: 0 <= i < |es| ==> !es[i].StoreAll?
    ensures forall t :: t in Run(start, es).log <==> t in Run(start, es).traces && t.direct
  {
    var n := |es| - 1;
    var s, e := Run(start, es[..n]), es[n];
    if n == 0 {
      ToStoreHas([], start, false);
    } else {
      DirectStored(start, es[..n]);
      StepHas(s, e);
    }
  }
}
