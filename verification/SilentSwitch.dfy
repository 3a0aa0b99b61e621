/**
 The silent switches of one node (pkg/componment/profile/signal_cache.go): per
 slow-report tuple a counter pair and a status that moves Init, Closing,
 Finished; every query folds the tuples by pid-url into a close list and a
 recover list, which the agent of the node applies to its silenced set.
 */
module SilentSwitch {
  import opened Basics
  import opened Text

  datatype Tuple = Tuple(
    entryService: string,
    entryUrl: string,
    mutatedService: string,
    mutatedPid: nat,
    mutatedUrl: string)

  datatype Status = Init | Closing | Finished

  /** The value of one slowReportMetric. */
  datatype Metric = Metric(total: nat, success: nat, status: Status)

  /** All metrics of a SignalCache. */
  type Signals = map<Tuple, Metric>

  /** The key by which the agent knows a process and a url. */
  function PidUrl(t: Tuple): string {
    Dec(t.mutatedPid) + "-" + t.mutatedUrl
  }

  lemma PidUrlInjective(t: Tuple, u: Tuple)
    ensures PidUrl(t) == PidUrl(u) <==> t.mutatedPid == u.mutatedPid && t.mutatedUrl == u.mutatedUrl
  {
    DecFree(t.mutatedPid, '-');
    DecFree(u.mutatedPid, '-');
    if PidUrl(t) == PidUrl(u) {
      CutUnique(Dec(t.mutatedPid), Dec(u.mutatedPid), '-', t.mutatedUrl, u.mutatedUrl);
      DecInjective(t.mutatedPid, u.mutatedPid);
    }
  }

  // ---------------------------------------------------------------- what one call does

  /** The tuple asks for its first silence: slow reports came and none was profiled. */
  predicate Opens(m: Metric) {
    m.status.Init? && m.total > 0 && m.success == 0
  }

  /** The tuple was silenced and a profiled report came since. */
  predicate Heals(m: Metric) {
    m.status.Closing? && m.success > 0
  }

  function Checked(m: Metric): Metric {
    if Opens(m) then m.(status := Closing)
    else if Heals(m) || (m.status.Init? && m.total > 0 && m.success > 0) then m.(status := Finished)
    else m
  }

  function Added(s: Signals, t: Tuple, profiled: bool): Signals {
    var m := if t in s then s[t] else Metric(0, 0, Init);
    s[t := Metric(m.total + 1, m.success + (if profiled then 1 else 0), m.status)]
  }

  function Queried(s: Signals): Signals {
    map t | t in s :: Checked(s[t])
  }

  function ClosingUrls(s: Signals): set<string> {
    set t | t in s && s[t].status.Closing? :: PidUrl(t)
  }

  function OpenedUrls(s: Signals): set<string> {
    set t | t in s && Opens(s[t]) :: PidUrl(t)
  }

  function HealedUrls(s: Signals): set<string> {
    set t | t in s && Heals(s[t]) :: PidUrl(t)
  }

  /** The recover list: healed pid-urls that no tuple keeps silent. */
  function RecoverUrls(s: Signals): set<string> {
    HealedUrls(s) - ClosingUrls(Queried(s))
  }

  /** The tuples already visited, given those that are not. */
  ghost function Part(s: Signals, todo: set<Tuple>): Signals {
    map t | t in s && t !in todo :: s[t]
  }

  /** The three sets are those of the visited tuples. */
  ghost predicate Folded(part: Signals, toCloses: set<string>, toRecovers: set<string>, ignores: set<string>) {
    toCloses == OpenedUrls(part) && toRecovers == HealedUrls(part) && ignores == ClosingUrls(Queried(part))
  }

  lemma PartGrows(s: Signals, todo: set<Tuple>, key: Tuple,
                  toCloses: set<string>, toRecovers: set<string>, ignores: set<string>)
    requires key in s && key in todo && Folded(Part(s, todo), toCloses, toRecovers, ignores)
    ensures Folded(Part(s, todo - {key}),
                   if Opens(s[key]) then toCloses + {PidUrl(key)} else toCloses,
                   if Heals(s[key]) then toRecovers + {PidUrl(key)} else toRecovers,
                   if Checked(s[key]).status.Closing? then ignores + {PidUrl(key)} else ignores)
  {
    var a, b := Part(s, todo), Part(s, todo - {key});
    assert b == a[key := s[key]];
    PartUrls(a, b, key);
  }

  lemma PartUrls(a: Signals, b: Signals, key: Tuple)
    requires key in b && b == a[key := b[key]] && (key in a ==> a[key] == b[key])
    ensures OpenedUrls(b) == OpenedUrls(a) + (if Opens(b[key]) then {PidUrl(key)} else {})
    ensures HealedUrls(b) == HealedUrls(a) + (if Heals(b[key]) then {PidUrl(key)} else {})
    ensures ClosingUrls(Queried(b)) ==
      ClosingUrls(Queried(a)) + (if Checked(b[key]).status.Closing? then {PidUrl(key)} else {})
  {
    assert forall t :: t in a ==> t in b && a[t] == b[t];
    assert forall t :: t in b ==> t == key || (t in a && a[t] == b[t]);
    QueriedUrls(a);
    QueriedUrls(b);
  }

  /** The pid-urls that a query leaves Closing, in terms of the metrics before it. */
  lemma QueriedUrls(s: Signals)
    ensures ClosingUrls(Queried(s)) == set t | t in s && Checked(s[t]).status.Closing? :: PidUrl(t)
  {
    assert forall t :: t in s <==> t in Queried(s);
  }

  // ---------------------------------------------------------------- the objects

  class SlowReportMetric {
    var total: nat
    var success: nat
    var status: Status

    ghost function View(): Metric
      reads this
    {
      Metric(total, success, status)
    }

    constructor ()
      ensures View() == Metric(0, 0, Init)
    {
      total, success, status := 0, 0, Init;
    }

    method AddMetric(profiled: bool)
      modifies this
      ensures total == old(total) + 1 && status == old(status)
      ensures success == old(success) + (if profiled then 1 else 0)
    {
      total := total + 1;
      if profiled {
        success := success + 1;
      }
    }

    method CheckStatus() returns (toClose: bool, toRecover: bool, silent: bool)
      modifies this
      ensures View() == Checked(old(View()))
      ensures toClose == Opens(old(View())) && toRecover == Heals(old(View()))
      ensures silent == status.Closing?
    {
      toClose, toRecover := false, false;
      if status == Init {
        if total > 0 {
          if success == 0 {
            status := Closing;
            toClose := true;
          } else {
            status := Finished;
          }
        }
      } else if status == Closing {
        if success > 0 {
          toRecover := true;
          status := Finished;
        }
      }
      silent := status == Closing;
    }
  }

  method Note(urls: set<string>, pidUrl: string, flag: bool) returns (noted: set<string>)
    ensures noted == if flag then urls + {pidUrl} else urls
  {
    noted := urls;
    if flag {
      noted := noted + {pidUrl};
    }
  }

  /** The row that a collection writes for a tuple. */
  datatype CountMetric = CountMetric(
    timestamp: int,
    entryService: string,
    entryUrl: string,
    mutatedService: string,
    mutatedUrl: string,
    total: nat,
    success: nat)

  function RowOf(t: Tuple, m: Metric, now: int): CountMetric {
    CountMetric(now, t.entryService, t.entryUrl, t.mutatedService, t.mutatedUrl, m.total, m.success)
  }

  /** A list holds each member of a set once, in any order. */
  ghost predicate Lists<T(!new)>(s: seq<T>, members: set<T>) {
    NoDup(s) && forall x :: x in s <==> x in members
  }

  lemma ListsSnoc<T(!new)>(s: seq<T>, members: set<T>, x: T)
    requires Lists(s, members) && x !in members
    ensures Lists(s + [x], members + {x})
  {
    assert forall i :: 0 <= i < |s| ==> s[i] in s;
  }

  method ToList(members: set<string>) returns (list: seq<string>)
    ensures Lists(list, members)
  {
    list := [];
    var todo := members;
    while todo != {}
      invariant todo <= members
      invariant Lists(list, members - todo)
    {
      var key :| key in todo;
      ListsSnoc(list, members - todo, key);
      list := list + [key];
      todo := todo - {key};
      assert (members - (todo + {key})) + {key} == members - todo;
    }
    assert members - todo == members;
  }

  /** One row for every tuple that has reports: the tuples in some order, and their rows. */
  ghost predicate RowsFor(rows: seq<CountMetric>, order: seq<Tuple>, s: Signals, now: int) {
    && Lists(order, set t | t in s && s[t].total > 0)
    && |rows| == |order|
    && forall i :: 0 <= i < |order| ==> order[i] in s && rows[i] == RowOf(order[i], s[order[i]], now)
  }

  lemma RowsGrow(rows: seq<CountMetric>, order: seq<Tuple>, s: Signals, todo: set<Tuple>, key: Tuple, now: int)
    requires key in s && key in todo && RowsFor(rows, order, Part(s, todo), now)
    ensures if s[key].total > 0
      then RowsFor(rows + [RowOf(key, s[key], now)], order + [key], Part(s, todo - {key}), now)
      else RowsFor(rows, order, Part(s, todo - {key}), now)
  {
    var a, b := Part(s, todo), Part(s, todo - {key});
    var had := set t | t in a && a[t].total > 0;
    var has := set t | t in b && b[t].total > 0;
    if s[key].total > 0 {
      assert has == had + {key};
      ListsSnoc(order, had, key);
    } else {
      assert has == had;
    }
  }

  class SignalCache {
    var metrics: map<Tuple, SlowReportMetric>

    /** No two tuples share a metric object. */
    ghost predicate Valid()
      reads this
    {
      forall t, u :: t in metrics && u in metrics && t != u ==> metrics[t] != metrics[u]
    }

    ghost function View(): Signals
      reads this, metrics.Values
    {
      map t | t in metrics :: metrics[t].View()
    }

    constructor ()
      ensures Valid() && View() == map[]
    {
      metrics := map[];
    }

    method AddSignal(t: Tuple, profiled: bool)
      requires Valid()
      modifies this, metrics.Values
      ensures Valid() && View() == Added(old(View()), t, profiled)
      ensures forall m :: m in metrics.Values ==> fresh(m) || m in old(metrics.Values)
    {
      MakeOne(t);
      CountOne(t, profiled);
    }

    /** The metric of a tuple is made on first use. */
    method MakeOne(t: Tuple)
      requires Valid()
      modifies this
      ensures Valid() && t in metrics
      ensures View() == if t in old(metrics) then old(View()) else old(View())[t := Metric(0, 0, Init)]
      ensures forall m :: m in metrics.Values ==> fresh(m) || m in old(metrics.Values)
    {
      if t !in metrics {
        var metric := new SlowReportMetric();
        metrics := metrics[t := metric];
      }
    }

    method CountOne(t: Tuple, profiled: bool)
      requires Valid() && t in metrics
      modifies metrics[t]
      ensures Valid() && View() == Added(old(View()), t, profiled)
    {
      metrics[t].AddMetric(profiled);
      assert forall u :: u in metrics && u != t ==> metrics[u] != metrics[t];
    }

    /** All metrics but those in todo have been checked. */
    ghost predicate Halfway(s: Signals, todo: set<Tuple>)
      reads this, metrics.Values
    {
      && todo <= metrics.Keys == s.Keys
      && forall t :: t in metrics ==> metrics[t].View() == if t in todo then s[t] else Checked(s[t])
    }

    /** The metric of one tuple is checked, the other objects stay as they are. */
    method CheckOne(key: Tuple, ghost s: Signals, ghost todo: set<Tuple>)
      returns (toClose: bool, toRecover: bool, silent: bool)
      requires Valid() && key in todo && Halfway(s, todo)
      modifies metrics[key]
      ensures Halfway(s, todo - {key})
      ensures toClose == Opens(s[key]) && toRecover == Heals(s[key])
      ensures silent == Checked(s[key]).status.Closing?
    {
      toClose, toRecover, silent := metrics[key].CheckStatus();
      assert forall t :: t in metrics && t != key ==> metrics[t] != metrics[key];
    }

    /** One call of the Range function: the status step and the three sets. */
    method Visit(key: Tuple, ghost s: Signals, ghost todo: set<Tuple>,
                 closes: set<string>, recovers: set<string>, silents: set<string>)
      returns (toCloses: set<string>, toRecovers: set<string>, ignores: set<string>)
      requires Valid() && key in todo && Halfway(s, todo)
      requires Folded(Part(s, todo), closes, recovers, silents)
      modifies metrics[key]
      ensures Halfway(s, todo - {key})
      ensures Folded(Part(s, todo - {key}), toCloses, toRecovers, ignores)
    {
      var pidUrl := PidUrl(key);
      PartGrows(s, todo, key, closes, recovers, silents);
      var toClose, toRecover, silent := CheckOne(key, s, todo);
      toCloses := Note(closes, pidUrl, toClose);
      toRecovers := Note(recovers, pidUrl, toRecover);
      ignores := Note(silents, pidUrl, silent);
    }

    /** Every tuple is checked once, in the arbitrary order of a Range loop. */
    method CheckAll() returns (toCloses: set<string>, toRecovers: set<string>, ignores: set<string>)
      requires Valid()
      modifies metrics.Values
      ensures Valid() && View() == Queried(old(View()))
      ensures toCloses == OpenedUrls(old(View())) && toRecovers == HealedUrls(old(View()))
      ensures ignores == ClosingUrls(Queried(old(View())))
    {
      toCloses, toRecovers, ignores := {}, {}, {};
      ghost var s := View();
      var todo := metrics.Keys;
      while todo != {}
        invariant Halfway(s, todo)
        invariant Folded(Part(s, todo), toCloses, toRecovers, ignores)
      {
        var key :| key in todo;
        toCloses, toRecovers, ignores := Visit(key, s, todo, toCloses, toRecovers, ignores);
        todo := todo - {key};
      }
      assert Part(s, {}) == s;
      assert View() == Queried(s);
    }

    /** One poll. */
    method QuerySilentSwitches() returns (closePidUrls: seq<string>, recoverPidUrls: seq<string>)
      requires Valid()
      modifies metrics.Values
      ensures Valid() && View() == Queried(old(View()))
      ensures Lists(closePidUrls, OpenedUrls(old(View())))
      ensures Lists(recoverPidUrls, RecoverUrls(old(View())))
    {
      var toCloses, toRecovers, ignores := CheckAll();
      closePidUrls, recoverPidUrls := [], [];
      if |toCloses| > 0 {
        closePidUrls := ToList(toCloses);
      }
      if |toRecovers| > 0 {
        toRecovers := toRecovers - ignores;
        recoverPidUrls := ToList(toRecovers);
      }
    }

    /** The minute job: write the counters of every tuple and forget the tuple. */
    method CollectCountMetrics(now: int) returns (result: seq<CountMetric>, ghost order: seq<Tuple>)
      requires Valid()
      modifies this
      ensures Valid() && View() == map[]
      ensures RowsFor(result, order, old(View()), now)
    {
      result, order := [], [];
      ghost var s, all := View(), metrics;
      while metrics.Keys != {}
        invariant metrics.Keys <= all.Keys && forall t :: t in metrics ==> metrics[t] == all[t]
        invariant forall t :: t in all ==> all[t].View() == s[t]
        invariant RowsFor(result, order, Part(s, metrics.Keys), now)
        decreases metrics.Keys
      {
        var key :| key in metrics.Keys;
        var value := metrics[key];
        RowsGrow(result, order, s, metrics.Keys, key, now);
        ghost var keys := metrics.Keys;
        if value.total > 0 {
          result := result + [CountMetric(now, key.entryService, key.entryUrl,
                                          key.mutatedService, key.mutatedUrl, value.total, value.success)];
          order := order + [key];
        }
        metrics := metrics - {key};
        assert metrics.Keys == keys - {key};
      }
      assert Part(s, {}) == s;
    }
  }

  // ---------------------------------------------------------------- runs

  datatype Event = Add(tuple: Tuple, profiled: bool) | Query | Collect

  /** The cache of a node and the silenced set of its agent. */
  datatype World = World(cache: Signals, agent: set<string>)

  /** The agent closes what an answer closes and recovers what it recovers. */
  function Apply(agent: set<string>, closes: set<string>, recovers: set<string>): set<string> {
    (agent + closes) - recovers
  }

  function Step(w: World, e: Event): World {
    match e
    case Add(t, profiled) => w.(cache := Added(w.cache, t, profiled))
    case Query => World(Queried(w.cache), Apply(w.agent, OpenedUrls(w.cache), RecoverUrls(w.cache)))
    case Collect => w.(cache := map[])
  }

  function Run(w: World, es: seq<Event>): World {
    if es == [] then w else Step(Run(w, es[..|es| - 1]), es[|es| - 1])
  }

  const START := World(map[], {})

  /** No answer both closes and recovers a pid-url, so the agent may apply the two lists in either order. */
  lemma AnswerDisjoint(s: Signals, agent: set<string>)
    ensures OpenedUrls(s) !! RecoverUrls(s)
    ensures Apply(agent, OpenedUrls(s), RecoverUrls(s)) == (agent - RecoverUrls(s)) + OpenedUrls(s)
  {
    OpenedStaySilent(s);
  }

  lemma OpenedStaySilent(s: Signals)
    ensures OpenedUrls(s) <= ClosingUrls(Queried(s))
  {
    forall u | u in OpenedUrls(s)
      ensures u in ClosingUrls(Queried(s))
    {
      var t :| t in s && Opens(s[t]) && PidUrl(t) == u;
      assert t in Queried(s) && Queried(s)[t].status.Closing?;
    }
  }

  /** What is silent after a query was opened by it, or was silent before and is not in its recover list. */
  lemma ClosingAfterQuery(s: Signals)
    ensures ClosingUrls(Queried(s)) == (ClosingUrls(s) + OpenedUrls(s)) - RecoverUrls(s)
  {
    OpenedStaySilent(s);
    var q := Queried(s);
    forall u | u in ClosingUrls(q)
      ensures u in ClosingUrls(s) + OpenedUrls(s)
    {
      var t :| t in q && q[t].status.Closing? && PidUrl(t) == u;
      assert t in s && (Opens(s[t]) || s[t].status.Closing?);
    }
    forall u | u in ClosingUrls(s) && u !in ClosingUrls(q)
      ensures u in RecoverUrls(s)
    {
      var t :| t in s && s[t].status.Closing? && PidUrl(t) == u;
      assert t in q && !q[t].status.Closing?;
      assert Heals(s[t]);
    }
  }

  lemma HealedWereClosing(s: Signals)
    ensures HealedUrls(s) <= ClosingUrls(s)
  {
    forall u | u in HealedUrls(s)
      ensures u in ClosingUrls(s)
    {
      var t :| t in s && Heals(s[t]) && PidUrl(t) == u;
      assert s[t].status.Closing?;
    }
  }

  lemma ClosingAfterAdd(s: Signals, t: Tuple, profiled: bool)
    ensures ClosingUrls(Added(s, t, profiled)) == ClosingUrls(s)
  {
    var a := Added(s, t, profiled);
    assert forall u :: u in s ==> u in a && a[u].status == s[u].status;
    assert forall u :: u in a && u !in s ==> a[u].status == Init;
    assert forall x :: x in ClosingUrls(s) ==> exists u :: u in s && s[u].status.Closing? && PidUrl(u) == x;
  }

  /** One step keeps the agent exact, unless it is a collection while some tuple is Closing. */
  lemma StepExact(w: World, e: Event)
    requires w.agent == ClosingUrls(w.cache)
    ensures Step(w, e).agent == ClosingUrls(Step(w, e).cache) <==> (e.Collect? ==> ClosingUrls(w.cache) == {})
  {
    match e
    case Add(t, profiled) => ClosingAfterAdd(w.cache, t, profiled);
    case Query => ClosingAfterQuery(w.cache);
    case Collect =>
  }

  ghost predicate ExactAfter(es: seq<Event>, k: nat)
    requires k <= |es|
  {
    Run(START, es[..k]).agent == ClosingUrls(Run(START, es[..k]).cache)
  }

  ghost predicate LosesSilence(es: seq<Event>, k: nat)
    requires k < |es|
  {
    es[k].Collect? && ClosingUrls(Run(START, es[..k]).cache) != {}
  }

  lemma ExactNext(es: seq<Event>, k: nat)
    requires k < |es| && ExactAfter(es, k)
    ensures ExactAfter(es, k + 1) <==> !LosesSilence(es, k)
  {
    StepExact(Run(START, es[..k]), es[k]);
    assert es[..k + 1][..k] == es[..k];
  }

  /**
   Over every run, the agent holds after each step exactly the pid-urls that
   have some tuple in Closing, if and only if no collection of the run comes
   while a tuple is Closing. A run without collections is the special case.
   */
  lemma AgentExactIff(es: seq<Event>)
    ensures (forall k: nat :: k <= |es| ==> ExactAfter(es, k)) <==> (forall k: nat :: k < |es| ==> !LosesSilence(es, k))
  {
    forall k: nat | k < |es| && ExactAfter(es, k)
      ensures ExactAfter(es, k + 1) <==> !LosesSilence(es, k)
    {
      ExactNext(es, k);
    }
    var p, q := (k: nat) => k <= |es| && ExactAfter(es, k), (k: nat) => k < |es| && LosesSilence(es, k);
    assert es[..0] == [] && ExactAfter(es, 0);
    KeptAllAlong(p, q, |es|);
    assert forall k: nat :: k <= |es| ==> p(k) == ExactAfter(es, k);
    assert forall k: nat :: k < |es| ==> q(k) == LosesSilence(es, k);
  }

  /** In terms of processes: an exact agent silences a process's url exactly when some tuple of both is Closing. */
  lemma SilencedProcess(w: World, t: Tuple)
    requires w.agent == ClosingUrls(w.cache)
    ensures PidUrl(t) in w.agent <==>
      exists u :: u in w.cache && w.cache[u].status.Closing? &&
        (u.mutatedPid, u.mutatedUrl) == (t.mutatedPid, t.mutatedUrl)
  {
    forall u | u in w.cache
      ensures PidUrl(t) == PidUrl(u) <==> t.mutatedPid == u.mutatedPid && t.mutatedUrl == u.mutatedUrl
    {
      PidUrlInjective(t, u);
    }
    if PidUrl(t) in w.agent {
      var u :| u in w.cache && w.cache[u].status.Closing? && PidUrl(u) == PidUrl(t);
    }
  }

  /** With collections anywhere in the run the agent still silences everything that is Closing. */
  lemma {:induction false} AgentCovers(es: seq<Event>)
    ensures ClosingUrls(Run(START, es).cache) <= Run(START, es).agent
  {
    if es != [] {
      var init, e := es[..|es| - 1], es[|es| - 1];
      AgentCovers(init);
      var w := Run(START, init);
      match e
      case Add(t, profiled) => ClosingAfterAdd(w.cache, t, profiled);
      case Query => ClosingAfterQuery(w.cache);
      case Collect =>
    }
  }

  /** Some query of the run closes the pid-url. */
  ghost predicate Reopened(w: World, es: seq<Event>, url: string) {
    exists k: nat :: k < |es| && es[k].Query? && url in OpenedUrls(Run(w, es[..k]).cache)
  }

  /**
   After a collection the cache cannot recover what the agent still holds: a
   pid-url leaves the silenced set only after a later query closed it anew,
   however many profiled reports arrive.
   */
  lemma {:induction false} StaysSilenced(w: World, es: seq<Event>, url: string)
    requires url in w.agent && url !in ClosingUrls(w.cache)
    requires !Reopened(w, es, url)
    ensures url in Run(w, es).agent && url !in ClosingUrls(Run(w, es).cache)
  {
    if es != [] {
      var n := |es| - 1;
      var init := es[..n];
      assert forall k: nat :: k < n ==> init[..k] == es[..k];
      assert !Reopened(w, init, url);
      StaysSilenced(w, init, url);
      var v := Run(w, init);
      match es[n]
      case Add(t, profiled) => ClosingAfterAdd(v.cache, t, profiled);
      case Query =>
        ClosingAfterQuery(v.cache);
        assert HealedUrls(v.cache) <= ClosingUrls(v.cache) by { HealedWereClosing(v.cache); }
      case Collect =>
    }
  }

  /** The smallest such run: silenced, collected, and a profiled report no longer recovers it. */
  lemma ForgottenSilence(t: Tuple)
    ensures var w := Run(START, [Add(t, false), Query, Collect, Add(t, true), Query]);
      w.agent == {PidUrl(t)} && ClosingUrls(w.cache) == {} && w.cache == map[t := Metric(1, 1, Finished)]
  {
    var w0 := World(map[t := Metric(1, 0, Init)], {});
    var es := [Add(t, false), Query, Collect, Add(t, true), Query];
    var es4, es3, es2, es1 := es[..4], es[..3], es[..2], es[..1];
    assert es4[..3] == es3 && es3[..2] == es2 && es2[..1] == es1 && es1[..0] == [];
    assert Run(START, es1) == w0;
    assert t in w0.cache && Opens(w0.cache[t]);
    assert OpenedUrls(w0.cache) == {PidUrl(t)};
    assert HealedUrls(w0.cache) == {};
    assert Run(START, es2).agent == {PidUrl(t)};
    var w3 := World(map[t := Metric(1, 1, Init)], {PidUrl(t)});
    assert Run(START, es4) == w3;
    assert OpenedUrls(w3.cache) == {} && HealedUrls(w3.cache) == {};
  }

  // ---------------------------------------------------------------- counters

  /** How often a run added the tuple, and how often with a profiled report. */
  function Adds(es: seq<Event>, t: Tuple, profiledOnly: bool): nat {
    if es == [] then 0
    else
      var e := es[|es| - 1];
      Adds(es[..|es| - 1], t, profiledOnly) + (if e.Add? && e.tuple == t && (profiledOnly ==> e.profiled) then 1 else 0)
  }

  function LiveCounts(s: Signals, t: Tuple): (nat, nat) {
    if t in s then (s[t].total, s[t].success) else (0, 0)
  }

  /** What the collections of a run wrote for the tuple in all. */
  function Reported(es: seq<Event>, t: Tuple): (nat, nat) {
    if es == [] then (0, 0)
    else
      var before := Reported(es[..|es| - 1], t);
      if es[|es| - 1].Collect? then
        var live := LiveCounts(Run(START, es[..|es| - 1]).cache, t);
        (before.0 + live.0, before.1 + live.1)
      else before
  }

  /** Every slow report is counted once: in a written row or in the cache. */
  lemma {:induction false} CountsConserved(es: seq<Event>, t: Tuple)
    ensures Reported(es, t).0 + LiveCounts(Run(START, es).cache, t).0 == Adds(es, t, false)
    ensures Reported(es, t).1 + LiveCounts(Run(START, es).cache, t).1 == Adds(es, t, true)
  {
    if es != [] {
      CountsConserved(es[..|es| - 1], t);
    }
  }
}
