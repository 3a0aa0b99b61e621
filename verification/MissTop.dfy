/**
 Who reports a trace whose root no collector has seen: the wait map and the
 miss map of pkg/analyzer/analyzer.go over the trace-time register of a cache.
 With the local cache (pkg/componment/redis/local_cache.go) the register is
 overwritten; MissTopElection.dfy has the shared one. Clocks are inputs, and
 CacheTrace and one pass of checkTask are each one step; MissTopRace.dfy splits them.
 */
module MissTop {
  import opened Basics

  datatype Entry = Entry(apmType: string, expireTime: int, checkNanoTime: int)

  datatype Cell = Cell(expireTime: int, data: int)

  /** The configured durations: missTopTime, delayPeriod, and the register's own expireTime. */
  datatype Config = Config(missTopTime: int, delayPeriod: int, registerTime: int)

  datatype Labels = Labels(traceId: string, topSpan: bool, apmType: string)

  /** checkMissMap and waitMap of the analyzer, checkMissMap of the cache. */
  datatype State = State(miss: map<string, Entry>, wait: map<string, int>, register: map<string, Cell>)

  function WaitTime(cfg: Config, apmType: string): int {
    if apmType == "nbs3" || apmType == "cw" then 60 else cfg.delayPeriod
  }

  function TraceTime(register: map<string, Cell>, id: string): int {
    if id in register then register[id].data else 0
  }

  function Traced(cfg: Config, s: State, labels: Labels, now: int, nano: int): State {
    var id := labels.traceId;
    var register :=
      if cfg.missTopTime <= 0 then s.register
      else if labels.topSpan then s.register[id := Cell(now + cfg.registerTime, -1)]
      else if TraceTime(s.register, id) >= 0 then s.register[id := Cell(now + cfg.registerTime, nano)]
      else s.register;
    var miss :=
      if cfg.missTopTime <= 0 || labels.topSpan then s.miss
      else s.miss[id := Entry(labels.apmType, now + cfg.missTopTime, nano)];
    var wait := if labels.topSpan then s.wait[id := now + WaitTime(cfg, labels.apmType)] else s.wait;
    State(miss, wait, register)
  }

  /** The wait entries that a pass sends out. */
  function Ripe(s: State, checkTime: int): set<string> {
    set id | id in s.wait && s.wait[id] < checkTime
  }

  predicate Quiet(m: Entry, checkTime: int) {
    m.expireTime < checkTime
  }

  predicate Wins(m: Entry, time: int, checkTime: int) {
    Quiet(m, checkTime) && time == m.checkNanoTime
  }

  /** The miss entries whose quiet time is over. */
  function Fired(s: State, checkTime: int): set<string> {
    set id | id in s.miss && Quiet(s.miss[id], checkTime)
  }

  /** Those among them whose own time still stands in the register. */
  function Elected(s: State, checkTime: int): set<string> {
    set id | id in s.miss && Wins(s.miss[id], TraceTime(s.register, id), checkTime)
  }

  function Checked(cfg: Config, s: State, checkTime: int): State {
    State(s.miss - Fired(s, checkTime),
          (s.wait - Ripe(s, checkTime)) +
          (map id | id in Elected(s, checkTime) :: checkTime + WaitTime(cfg, s.miss[id].apmType)),
          s.register)
  }

  function Expired(s: State, checkTime: int): State {
    s.(register := map id | id in s.register && s.register[id].expireTime >= checkTime :: s.register[id])
  }

  /** The scan of the miss map when the entries in todo are still to come. */
  ghost predicate HalfFired(cfg: Config, s: State, checkTime: int, todo: set<string>,
                            miss: map<string, Entry>, wait: map<string, int>) {
    && todo <= s.miss.Keys
    && miss == s.miss - (Fired(s, checkTime) - todo)
    && wait == s.wait + Waits(cfg, s, checkTime, todo)
  }

  lemma HalfFiredStart(cfg: Config, s: State, checkTime: int)
    ensures HalfFired(cfg, s, checkTime, s.miss.Keys, s.miss, s.wait)
  {
    assert Fired(s, checkTime) - s.miss.Keys == {};
  }

  lemma HalfFiredEnd(cfg: Config, s: State, checkTime: int, miss: map<string, Entry>, wait: map<string, int>)
    requires HalfFired(cfg, s, checkTime, {}, miss, wait)
    ensures miss == s.miss - Fired(s, checkTime)
    ensures wait == s.wait + (map id | id in Elected(s, checkTime) :: checkTime + WaitTime(cfg, s.miss[id].apmType))
  {
    assert Fired(s, checkTime) - {} == Fired(s, checkTime);
  }

  lemma HalfFiredStep(cfg: Config, s: State, checkTime: int, todo: set<string>,
                      miss: map<string, Entry>, wait: map<string, int>, id: string)
    requires id in todo && HalfFired(cfg, s, checkTime, todo, miss, wait)
    ensures id in miss && miss[id] == s.miss[id]
    ensures HalfFired(cfg, s, checkTime, todo - {id},
              if Quiet(miss[id], checkTime) then miss - {id} else miss,
              if Wins(miss[id], TraceTime(s.register, id), checkTime)
              then wait[id := checkTime + WaitTime(cfg, miss[id].apmType)] else wait)
  {
    var late := Fired(s, checkTime);
    assert id in late <==> Quiet(s.miss[id], checkTime);
    assert late - (todo - {id}) == late - todo + (if id in late then {id} else {});
    WaitStep(cfg, s, checkTime, todo, id);
  }

  /** What the elected entries outside todo add to the wait map. */
  ghost function Waits(cfg: Config, s: State, checkTime: int, todo: set<string>): map<string, int> {
    map id | id in Elected(s, checkTime) && id !in todo :: checkTime + WaitTime(cfg, s.miss[id].apmType)
  }

  lemma WaitStep(cfg: Config, s: State, checkTime: int, todo: set<string>, id: string)
    requires id in todo && id in s.miss
    ensures Waits(cfg, s, checkTime, todo - {id}) ==
      if Wins(s.miss[id], TraceTime(s.register, id), checkTime)
      then Waits(cfg, s, checkTime, todo)[id := checkTime + WaitTime(cfg, s.miss[id].apmType)]
      else Waits(cfg, s, checkTime, todo)
  {
  }

  // ---------------------------------------------------------------- the objects

  class LocalRegister {
    const expireTime: int
    var checkMissMap: map<string, Cell>

    constructor (expireTime: int)
      ensures this.expireTime == expireTime && checkMissMap == map[]
    {
      this.expireTime := expireTime;
      checkMissMap := map[];
    }

    method RecordTraceTime(traceId: string, data: int, now: int)
      modifies this
      ensures checkMissMap == old(checkMissMap)[traceId := Cell(now + expireTime, data)]
    {
      checkMissMap := checkMissMap[traceId := Cell(now + expireTime, data)];
    }

    method GetTraceTime(traceId: string) returns (data: int)
      ensures data == TraceTime(checkMissMap, traceId)
    {
      if traceId in checkMissMap {
        return checkMissMap[traceId].data;
      }
      return 0;
    }

    method CheckExpire(checkTime: int)
      modifies this
      ensures checkMissMap ==
        map id | id in old(checkMissMap) && old(checkMissMap)[id].expireTime >= checkTime :: old(checkMissMap)[id]
    {
      ghost var all := checkMissMap;
      var todo := checkMissMap.Keys;
      while todo != {}
        invariant todo <= checkMissMap.Keys <= all.Keys
        invariant forall id :: id in checkMissMap ==> checkMissMap[id] == all[id]
        invariant forall id :: id in all ==> (id in checkMissMap <==> id in todo || all[id].expireTime >= checkTime)
      {
        var id :| id in todo;
        if checkMissMap[id].expireTime < checkTime {
          checkMissMap := checkMissMap - {id};
        }
        todo := todo - {id};
      }
    }
  }

  class Analyzer {
    const cfg: Config
    const cache: LocalRegister
    var checkMissMap: map<string, Entry>
    var waitMap: map<string, int>

    ghost predicate Valid() {
      cache.expireTime == cfg.registerTime
    }

    ghost function View(): State
      reads this, cache
    {
      State(checkMissMap, waitMap, cache.checkMissMap)
    }

    constructor (cfg: Config)
      ensures Valid() && fresh(cache) && this.cfg == cfg && View() == State(map[], map[], map[])
    {
      this.cfg := cfg;
      checkMissMap, waitMap := map[], map[];
      cache := new LocalRegister(cfg.registerTime);
    }

    method CacheTrace(labels: Labels, now: int, nano: int)
      requires Valid()
      modifies this, cache
      ensures View() == Traced(cfg, old(View()), labels, now, nano)
    {
      if cfg.missTopTime > 0 {
        if labels.topSpan {
          cache.RecordTraceTime(labels.traceId, -1, now);
        } else {
          checkMissMap := checkMissMap[labels.traceId := Entry(labels.apmType, now + cfg.missTopTime, nano)];
          var flag := cache.GetTraceTime(labels.traceId);
          if flag >= 0 {
            cache.RecordTraceTime(labels.traceId, nano, now);
          }
        }
      }
      if !labels.topSpan {
        return;
      }
      var waitTime := GetWaitTime(labels.apmType);
      waitMap := waitMap[labels.traceId := now + waitTime];
    }

    method GetWaitTime(apmType: string) returns (seconds: int)
      ensures seconds == WaitTime(cfg, apmType)
    {
      if apmType == "nbs3" || apmType == "cw" {
        return 60;
      }
      return cfg.delayPeriod;
    }

    /** The two map scans of one pass of checkTask. */
    method CheckTask(checkTime: int) returns (notified: seq<string>)
      modifies this
      ensures View() == Checked(cfg, old(View()), checkTime)
      ensures forall id :: id in notified <==> id in Ripe(old(View()), checkTime)
      ensures NoDup(notified)
    {
      notified := SendRipe(checkTime);
      FireMisses(checkTime);
    }

    method SendRipe(checkTime: int) returns (notified: seq<string>)
      modifies this`waitMap
      ensures waitMap == old(waitMap) - Ripe(old(View()), checkTime)
      ensures forall id :: id in notified <==> id in Ripe(old(View()), checkTime)
      ensures NoDup(notified)
    {
      notified := [];
      ghost var all := waitMap;
      var todo := waitMap.Keys;
      while todo != {}
        invariant todo <= waitMap.Keys <= all.Keys
        invariant forall id :: id in waitMap ==> waitMap[id] == all[id]
        invariant forall id :: id in all ==> (id in waitMap <==> id in todo || !(all[id] < checkTime))
        invariant forall id :: id in notified <==> id in all && id !in waitMap
        invariant NoDup(notified)
      {
        var id :| id in todo;
        if waitMap[id] < checkTime {
          assert forall i :: 0 <= i < |notified| ==> notified[i] in notified;
          notified := notified + [id];
          waitMap := waitMap - {id};
        }
        todo := todo - {id};
      }
    }

    method FireMisses(checkTime: int)
      modifies this
      ensures View() == State(
        old(checkMissMap) - Fired(old(View()), checkTime),
        old(waitMap) + (map id | id in Elected(old(View()), checkTime) ::
          checkTime + WaitTime(cfg, old(checkMissMap)[id].apmType)),
        old(cache.checkMissMap))
    {
      ghost var s := View();
      var todo := checkMissMap.Keys;
      HalfFiredStart(cfg, s, checkTime);
      while todo != {}
        invariant todo <= checkMissMap.Keys
        invariant HalfFired(cfg, s, checkTime, todo, checkMissMap, waitMap)
      {
        var id :| id in todo;
        HalfFiredStep(cfg, s, checkTime, todo, checkMissMap, waitMap, id);
        FireOne(id, checkTime);
        todo := todo - {id};
      }
      HalfFiredEnd(cfg, s, checkTime, checkMissMap, waitMap);
    }

    method FireOne(id: string, checkTime: int)
      requires id in checkMissMap
      modifies this
      ensures checkMissMap ==
        if Quiet(old(checkMissMap)[id], checkTime) then old(checkMissMap) - {id} else old(checkMissMap)
      ensures waitMap == if Wins(old(checkMissMap)[id], TraceTime(cache.checkMissMap, id), checkTime)
        then old(waitMap)[id := checkTime + WaitTime(cfg, old(checkMissMap)[id].apmType)] else old(waitMap)
    {
      var traceValue := checkMissMap[id];
      if traceValue.expireTime < checkTime {
        var time := cache.GetTraceTime(id);
        if time == traceValue.checkNanoTime {
          var waitTime := GetWaitTime(traceValue.apmType);
          waitMap := waitMap[id := checkTime + waitTime];
        }
        checkMissMap := checkMissMap - {id};
      }
    }
  }

  // ---------------------------------------------------------------- runs

  /** A trace arrives; a pass of checkTask; a pass of the cache's checkExpire. */
  datatype Event = Trace(labels: Labels, now: int, nano: int) | Check(checkTime: int) | Expire(checkTime: int)

  function Step(cfg: Config, s: State, e: Event): State {
    match e
    case Trace(labels, now, nano) => Traced(cfg, s, labels, now, nano)
    case Check(checkTime) => Checked(cfg, s, checkTime)
    case Expire(checkTime) => Expired(s, checkTime)
  }

  function Run(cfg: Config, es: seq<Event>): State {
    if es == [] then State(map[], map[], map[]) else Step(cfg, Run(cfg, es[..|es| - 1]), es[|es| - 1])
  }

  predicate IsTop(e: Event, id: string) {
    e.Trace? && e.labels.traceId == id && e.labels.topSpan
  }

  predicate IsOther(e: Event, id: string) {
    e.Trace? && e.labels.traceId == id && !e.labels.topSpan
  }

  /** The i-th event is the expiry that removes the register entry of the trace. */
  predicate Forgets(cfg: Config, es: seq<Event>, i: nat, id: string)
    requires i < |es|
  {
    var register := Run(cfg, es[..i]).register;
    es[i].Expire? && id in register && register[id].expireTime < es[i].checkTime
  }

  /** The last non-top span of the trace, -1 when there is none. */
  function LastOther(es: seq<Event>, id: string): (m: int)
    ensures -1 <= m < |es|
    ensures m >= 0 ==> IsOther(es[m], id)
    ensures forall i :: m < i < |es| ==> !IsOther(es[i], id)
  {
    if es == [] then -1 else if IsOther(es[|es| - 1], id) then |es| - 1 else LastOther(es[..|es| - 1], id)
  }

  /** nano clocks are positive. */
  ghost predicate NanosPositive(es: seq<Event>) {
    forall i :: 0 <= i < |es| && es[i].Trace? ==> es[i].nano > 0
  }

  /** A pass after event m that finds the quiet time of the span m over. */
  ghost predicate FiredSince(cfg: Config, es: seq<Event>, m: nat)
    requires m < |es| && es[m].Trace?
  {
    exists i :: m < i < |es| && es[i].Check? && es[m].now + cfg.missTopTime < es[i].checkTime
  }

  /**
   Debounce: the miss entry of a trace is always that of its last non-top span,
   and it is there exactly until a pass after the quiet time of that span.
   */
  lemma {:induction false} EntryIsLast(cfg: Config, es: seq<Event>, id: string)
    requires cfg.missTopTime > 0
    ensures var miss, m := Run(cfg, es).miss, LastOther(es, id);
      && (id in miss <==> m >= 0 && !FiredSince(cfg, es, m))
      && (id in miss ==> miss[id] == Entry(es[m].labels.apmType, es[m].now + cfg.missTopTime, es[m].nano))
  {
    if es != [] {
      var init, e := es[..|es| - 1], es[|es| - 1];
      EntryIsLast(cfg, init, id);
      var m := LastOther(init, id);
      if m >= 0 && !IsOther(e, id) {
        assert LastOther(es, id) == m && init[m] == es[m];
        assert FiredSince(cfg, init, m) ==> FiredSince(cfg, es, m) by {
          if FiredSince(cfg, init, m) {
            var i :| m < i < |init| && init[i].Check? && init[m].now + cfg.missTopTime < init[i].checkTime;
            assert es[i] == init[i];
          }
        }
        assert forall i :: 0 <= i < |init| ==> es[i] == init[i];
        assert FiredSince(cfg, es, m) <==>
          FiredSince(cfg, init, m) || (e.Check? && es[m].now + cfg.missTopTime < e.checkTime);
      }
    }
  }

  /** The register is free of a top mark: every top before m was forgotten before m. */
  ghost predicate TopsForgotten(cfg: Config, es: seq<Event>, m: nat, id: string)
    requires m <= |es|
  {
    forall j :: 0 <= j < m && IsTop(es[j], id) ==> exists f :: j < f < m && Forgets(cfg, es, f, id)
  }

  lemma ForgetsPrefix(cfg: Config, es: seq<Event>, n: nat, f: nat, id: string)
    requires f < n <= |es|
    ensures Forgets(cfg, es[..n], f, id) == Forgets(cfg, es, f, id)
  {
    assert es[..n][..f] == es[..f];
  }

  lemma TopsForgottenPrefix(cfg: Config, es: seq<Event>, n: nat, m: nat, id: string)
    requires m <= n <= |es|
    ensures TopsForgotten(cfg, es[..n], m, id) == TopsForgotten(cfg, es, m, id)
  {
    forall f | 0 <= f < n
      ensures Forgets(cfg, es[..n], f, id) == Forgets(cfg, es, f, id)
    {
      ForgetsPrefix(cfg, es, n, f, id);
    }
    forall j | 0 <= j < m && IsTop(es[j], id)
      ensures (exists f :: j < f < m && Forgets(cfg, es[..n], f, id)) ==
        (exists f :: j < f < m && Forgets(cfg, es, f, id))
    {
    }
    assert forall j :: 0 <= j < m ==> es[..n][j] == es[j];
  }

  /** The flag is negative exactly when some top mark is not forgotten yet. */
  lemma {:induction false} FlagMeansTop(cfg: Config, es: seq<Event>, id: string)
    requires cfg.missTopTime > 0 && NanosPositive(es)
    ensures TraceTime(Run(cfg, es).register, id) >= 0 <==> TopsForgotten(cfg, es, |es|, id)
    ensures TraceTime(Run(cfg, es).register, id) == 0 <==> id !in Run(cfg, es).register
  {
    if es != [] {
      var n := |es| - 1;
      var init, e := es[..n], es[n];
      assert NanosPositive(init);
      FlagMeansTop(cfg, init, id);
      TopsForgottenPrefix(cfg, es, n, n, id);
      assert Forgets(cfg, es, n, id) <==>
        e.Expire? && id in Run(cfg, init).register && Run(cfg, init).register[id].expireTime < e.checkTime;
      if Forgets(cfg, es, n, id) {
        assert TopsForgotten(cfg, es, |es|, id);
      } else if IsTop(e, id) {
        assert !TopsForgotten(cfg, es, |es|, id);
      } else {
        assert TopsForgotten(cfg, es, |es|, id) == TopsForgotten(cfg, es, n, id);
      }
    }
  }

  /** What makes a fired entry win: the register is not marked or forgotten since, and was not marked then. */
  ghost predicate StillMissing(cfg: Config, es: seq<Event>, m: nat, id: string)
    requires m < |es|
  {
    && TopsForgotten(cfg, es, m, id)
    && forall i :: m < i < |es| ==> !IsTop(es[i], id) && !Forgets(cfg, es, i, id)
  }

  lemma {:induction false} RegisterHoldsLast(cfg: Config, es: seq<Event>, id: string)
    requires cfg.missTopTime > 0 && NanosPositive(es) && LastOther(es, id) >= 0
    ensures var m := LastOther(es, id);
      TraceTime(Run(cfg, es).register, id) == es[m].nano <==> StillMissing(cfg, es, m, id)
  {
    var n := |es| - 1;
    var init, e := es[..n], es[n];
    var m := LastOther(es, id);
    assert NanosPositive(init);
    FlagMeansTop(cfg, init, id);
    if IsOther(e, id) {
      TopsForgottenPrefix(cfg, es, n, n, id);
    } else {
      assert LastOther(init, id) == m;
      RegisterHoldsLast(cfg, init, id);
      RegisterMoves(cfg, Run(cfg, init), e, id, es[m].nano);
      StillMissingSnoc(cfg, es, m, id);
    }
  }

  /**
   An event other than a non-top span of the trace keeps a span's time in the
   register unless it marks or forgets it.
   */
  lemma RegisterMoves(cfg: Config, s: State, e: Event, id: string, nano: int)
    requires cfg.missTopTime > 0 && !IsOther(e, id) && nano > 0
    ensures TraceTime(Step(cfg, s, e).register, id) == nano <==>
      && TraceTime(s.register, id) == nano && !IsTop(e, id)
      && !(e.Expire? && id in s.register && s.register[id].expireTime < e.checkTime)
  {
  }

  lemma StillMissingSnoc(cfg: Config, es: seq<Event>, m: nat, id: string)
    requires m < |es| - 1
    ensures var n := |es| - 1;
      StillMissing(cfg, es, m, id) <==>
      StillMissing(cfg, es[..n], m, id) && !IsTop(es[n], id) && !Forgets(cfg, es, n, id)
  {
    var n := |es| - 1;
    TopsForgottenPrefix(cfg, es, n, m, id);
    forall i | 0 <= i < n
      ensures Forgets(cfg, es[..n], i, id) == Forgets(cfg, es, i, id)
    {
      ForgetsPrefix(cfg, es, n, i, id);
    }
    assert forall i :: 0 <= i < n ==> es[..n][i] == es[i];
  }

  /**
   The decision, over every run with expiries: when the miss entry of a trace
   fires, it moves to the wait map exactly if every top span recorded before
   its last non-top span was forgotten by then, and none was recorded and
   nothing forgotten since.
   */
  lemma DecisionExact(cfg: Config, es: seq<Event>, checkTime: int, id: string)
    requires cfg.missTopTime > 0 && NanosPositive(es)
    requires id in Fired(Run(cfg, es), checkTime)
    ensures LastOther(es, id) >= 0
    ensures id in Elected(Run(cfg, es), checkTime) <==> StillMissing(cfg, es, LastOther(es, id), id)
  {
    EntryIsLast(cfg, es, id);
    RegisterHoldsLast(cfg, es, id);
  }

  /** While no register entry of the trace expires: it is reported as missing its top exactly if no top was recorded. */
  lemma DecisionUnexpired(cfg: Config, es: seq<Event>, checkTime: int, id: string)
    requires cfg.missTopTime > 0 && NanosPositive(es)
    requires id in Fired(Run(cfg, es), checkTime)
    requires forall i :: 0 <= i < |es| ==> !Forgets(cfg, es, i, id)
    ensures id in Elected(Run(cfg, es), checkTime) <==> forall i :: 0 <= i < |es| ==> !IsTop(es[i], id)
    ensures id in Elected(Run(cfg, es), checkTime) ==> id in Checked(cfg, Run(cfg, es), checkTime).wait
    ensures id !in Elected(Run(cfg, es), checkTime) ==>
      (id in Checked(cfg, Run(cfg, es), checkTime).wait ==> id in Run(cfg, es).wait)
  {
    DecisionExact(cfg, es, checkTime, id);
    assert forall i :: 0 <= i < |es| && i == LastOther(es, id) ==> !IsTop(es[i], id);
  }

  // ---------------------------------------------------------------- who waits, and how long

  /** What makes a trace wait: a top span, or a pass that elects it. */
  predicate Starts(cfg: Config, es: seq<Event>, i: nat, id: string)
    requires i < |es|
  {
    IsTop(es[i], id) || (es[i].Check? && id in Elected(Run(cfg, es[..i]), es[i].checkTime))
  }

  function LastStart(cfg: Config, es: seq<Event>, id: string): (m: int)
    ensures -1 <= m < |es|
  {
    if es == [] then -1
    else if Starts(cfg, es, |es| - 1, id) then |es| - 1
    else LastStart(cfg, es[..|es| - 1], id)
  }

  /** An entry is that of a non-top span, whatever the configuration. */
  lemma {:induction false} EntryHasSpan(cfg: Config, es: seq<Event>, id: string)
    ensures id in Run(cfg, es).miss ==>
      cfg.missTopTime > 0 &&
      LastOther(es, id) >= 0 && Run(cfg, es).miss[id].apmType == es[LastOther(es, id)].labels.apmType
  {
    if es != [] {
      EntryHasSpan(cfg, es[..|es| - 1], id);
    }
  }

  /**
   The kind of tracing by which the i-th event makes the trace wait: that of its
   top span, or of its last other span.
   */
  function ApmTypeAt(es: seq<Event>, i: nat, id: string): string
    requires i < |es|
  {
    if es[i].Trace? then es[i].labels.apmType
    else if LastOther(es[..i], id) >= 0 then es[LastOther(es[..i], id)].labels.apmType
    else ""
  }

  function TimeOf(e: Event): int {
    if e.Trace? then e.now else e.checkTime
  }

  /** Until when: a minute for the two kinds that are sent once a minute, else the configured delay. */
  function Deadline(cfg: Config, es: seq<Event>, m: nat, id: string): int
    requires m < |es|
  {
    TimeOf(es[m]) + (if ApmTypeAt(es, m, id) == "nbs3" || ApmTypeAt(es, m, id) == "cw" then 60 else cfg.delayPeriod)
  }

  /** A pass after event m and before event n comes past the time. */
  ghost predicate PassedBy(es: seq<Event>, m: nat, n: nat, time: int)
    requires m < n <= |es|
  {
    exists i :: m < i < n && es[i].Check? && time < es[i].checkTime
  }

  lemma StartsPrefix(cfg: Config, es: seq<Event>, n: nat, m: nat, id: string)
    requires m < n <= |es|
    ensures Starts(cfg, es[..n], m, id) == Starts(cfg, es, m, id)
    ensures Deadline(cfg, es[..n], m, id) == Deadline(cfg, es, m, id)
  {
    assert es[..n][..m] == es[..m];
  }

  /** How one event changes the wait entry of a trace. */
  lemma WaitMoves(cfg: Config, es: seq<Event>, id: string)
    requires es != []
    ensures var n := |es| - 1;
      var before, wait := Run(cfg, es[..n]).wait, Run(cfg, es).wait;
      if Starts(cfg, es, n, id) then id in wait && wait[id] == Deadline(cfg, es, n, id)
      else
        && (id in wait <==> id in before && !(es[n].Check? && before[id] < es[n].checkTime))
        && (id in wait ==> wait[id] == before[id])
  {
    EntryHasSpan(cfg, es[..|es| - 1], id);
  }

  /**
   Over every run: a trace waits exactly from its last start on, by a top span or
   an election, until a pass comes past its deadline; its entry is that deadline.
   */
  lemma {:induction false} WaitIsLast(cfg: Config, es: seq<Event>, id: string)
    ensures var wait, m := Run(cfg, es).wait, LastStart(cfg, es, id);
      && (id in wait <==> m >= 0 && !PassedBy(es, m, |es|, Deadline(cfg, es, m, id)))
      && (id in wait ==> wait[id] == Deadline(cfg, es, m, id))
  {
    if es != [] {
      var n := |es| - 1;
      WaitIsLast(cfg, es[..n], id);
      WaitMoves(cfg, es, id);
      var m := LastStart(cfg, es[..n], id);
      if m >= 0 && !Starts(cfg, es, n, id) {
        StartsPrefix(cfg, es, n, m, id);
        PassedByNext(es, m, Deadline(cfg, es, m, id));
      }
    }
  }

  lemma PassedByNext(es: seq<Event>, m: nat, time: int)
    requires m < |es| - 1
    ensures var n := |es| - 1;
      PassedBy(es, m, |es|, time) <==> PassedBy(es[..n], m, n, time) || (es[n].Check? && time < es[n].checkTime)
  {
    var n := |es| - 1;
    assert forall i :: 0 <= i < n ==> es[..n][i] == es[i];
  }

  /**
   So a pass sends a trace out exactly if it is the first to come past the
   deadline of its last start.
   */
  lemma SentIff(cfg: Config, es: seq<Event>, i: nat, id: string)
    requires i < |es| && es[i].Check?
    ensures var m := LastStart(cfg, es[..i], id);
      id in Ripe(Run(cfg, es[..i]), es[i].checkTime) <==>
      m >= 0 && Deadline(cfg, es, m, id) < es[i].checkTime && !PassedBy(es, m, i, Deadline(cfg, es, m, id))
  {
    WaitIsLast(cfg, es[..i], id);
    var m := LastStart(cfg, es[..i], id);
    if m >= 0 {
      StartsPrefix(cfg, es, i, m, id);
      assert forall k :: 0 <= k < i ==> es[..i][k] == es[k];
    }
  }

  // ---------------------------------------------------------------- how long the register remembers

  /** A top span always records, another span unless a top is marked. */
  predicate Records(cfg: Config, es: seq<Event>, i: nat, id: string)
    requires i < |es|
  {
    IsTop(es[i], id) || (IsOther(es[i], id) && TraceTime(Run(cfg, es[..i]).register, id) >= 0)
  }

  function LastRecord(cfg: Config, es: seq<Event>, id: string): (m: int)
    ensures -1 <= m < |es|
  {
    if es == [] then -1
    else if Records(cfg, es, |es| - 1, id) then |es| - 1
    else LastRecord(cfg, es[..|es| - 1], id)
  }

  /** An expiry after event m and before event n comes past the time. */
  ghost predicate ExpiredBy(es: seq<Event>, m: nat, n: nat, time: int)
    requires m < n <= |es|
  {
    exists i :: m < i < n && es[i].Expire? && time < es[i].checkTime
  }

  lemma ExpiredByNext(es: seq<Event>, m: nat, time: int)
    requires m < |es| - 1
    ensures var n := |es| - 1;
      ExpiredBy(es, m, |es|, time) <==> ExpiredBy(es[..n], m, n, time) || (es[n].Expire? && time < es[n].checkTime)
  {
    var n := |es| - 1;
    assert forall i :: 0 <= i < n ==> es[..n][i] == es[i];
  }

  /**
   The register holds what the last recording span of the trace recorded, -1 for
   a top and its time for another, until an expiry pass comes past the configured
   time after it.
   */
  lemma {:induction false} CellIsLast(cfg: Config, es: seq<Event>, id: string)
    requires cfg.missTopTime > 0
    ensures var register, m := Run(cfg, es).register, LastRecord(cfg, es, id);
      && (m >= 0 ==> es[m].Trace?)
      && (id in register <==> m >= 0 && !ExpiredBy(es, m, |es|, es[m].now + cfg.registerTime))
      && (id in register ==>
           register[id] == Cell(es[m].now + cfg.registerTime, if es[m].labels.topSpan then -1 else es[m].nano))
  {
    if es != [] {
      var n := |es| - 1;
      CellIsLast(cfg, es[..n], id);
      var m := LastRecord(cfg, es[..n], id);
      if m >= 0 && !Records(cfg, es, n, id) {
        ExpiredByNext(es, m, es[m].now + cfg.registerTime);
      }
    }
  }

  /** When an expiry makes the register forget a trace, in times of events. */
  lemma ForgetsIff(cfg: Config, es: seq<Event>, i: nat, id: string)
    requires cfg.missTopTime > 0 && i < |es|
    ensures var m := LastRecord(cfg, es[..i], id);
      Forgets(cfg, es, i, id) <==>
        && es[i].Expire? && m >= 0 && es[m].Trace? && es[m].now + cfg.registerTime < es[i].checkTime
        && !ExpiredBy(es, m, i, es[m].now + cfg.registerTime)
  {
    CellIsLast(cfg, es[..i], id);
    assert forall k :: 0 <= k < i ==> es[..i][k] == es[k];
  }
}
