/**
 The silent switches when nothing stops the world: querySilentSwitches and
 collectCountMetrics of pkg/componment/profile/signal_cache.go range over the
 tuples without the lock of addSignal, and even that lock does not keep the
 collector from deleting a tuple between the lookup of its metric and the count.
 Metrics are objects here: a report finds one and then counts in it, a poll loads
 one and then checks it, the collector writes the row of one and then deletes
 its tuple, and all of this interleaves. A range visits no tuple twice and misses
 none that stays.
 */
module SilentScan {
  import opened Basics
  import opened SilentSwitch

  /** A metric object and the tuple it was made for. */
  datatype Object = Object(tuple: Tuple, metric: Metric)

  /**
   A poll under way: the tuples it still has to visit, those it has visited, the
   object it has loaded, and its three sets.
   */
  datatype Scan = Scan(
    due: set<Tuple>,
    seen: set<Tuple>,
    held: Option<nat>,
    toCloses: set<string>,
    toRecovers: set<string>,
    ignores: set<string>)

  /** adding: the object that a report has found; row: the tuple whose row is written and which is deleted next. */
  datatype Node = Node(
    heap: seq<Object>,
    cache: map<Tuple, nat>,
    agent: set<string>,
    scan: Option<Scan>,
    adding: Option<nat>,
    row: Option<Tuple>)

  datatype Move =
    | Find(tuple: Tuple)
    | Count(profiled: bool)
    | Begin
    | Load(tuple: Tuple)
    | Check
    | Answer
    | Write(tuple: Tuple)
    | Delete

  const IDLE := Node([], map[], {}, None, None, None)

  ghost predicate WellFormed(w: Node) {
    && (forall t :: t in w.cache ==> w.cache[t] < |w.heap| && w.heap[w.cache[t]].tuple == t)
    && (w.adding.Some? ==> w.adding.value < |w.heap|)
    && (w.row.Some? ==> w.row.value in w.cache)
    && (w.scan.Some? && w.scan.value.held.Some? ==> w.scan.value.held.value < |w.heap|)
    && (w.scan.Some? ==> w.scan.value.due <= w.cache.Keys && w.scan.value.due !! w.scan.value.seen)
    && (w.scan.Some? && w.scan.value.held.Some? ==> w.heap[w.scan.value.held.value].tuple in w.scan.value.seen)
  }

  /** The metrics that the tuples have. */
  function Live(w: Node): Signals
    requires WellFormed(w)
  {
    map t | t in w.cache :: w.heap[w.cache[t]].metric
  }

  predicate IsLive(w: Node, i: nat)
    requires WellFormed(w) && i < |w.heap|
  {
    w.heap[i].tuple in w.cache && w.cache[w.heap[i].tuple] == i
  }

  function Counted(m: Metric, profiled: bool): Metric {
    Metric(m.total + 1, m.success + (if profiled then 1 else 0), m.status)
  }

  function WithMetric(w: Node, i: nat, m: Metric): Node
    requires i < |w.heap|
  {
    w.(heap := w.heap[i := w.heap[i].(metric := m)])
  }

  function Visited(scan: Scan, url: string, m: Metric): Scan {
    scan.(held := None,
          toCloses := if Opens(m) then scan.toCloses + {url} else scan.toCloses,
          toRecovers := if Heals(m) then scan.toRecovers + {url} else scan.toRecovers,
          ignores := if Checked(m).status.Closing? then scan.ignores + {url} else scan.ignores)
  }

  /** Whether the step can be taken at all; addSignal holds its lock, and there is one poll and one collector. */
  predicate Enabled(w: Node, e: Move) {
    match e
    case Find(t) => w.adding.None?
    case Count(profiled) => w.adding.Some?
    case Begin => w.scan.None?
    case Load(t) => w.scan.Some? && w.scan.value.held.None? && t in w.cache && t !in w.scan.value.seen
    case Check => w.scan.Some? && w.scan.value.held.Some?
    case Answer => w.scan.Some? && w.scan.value.held.None? && w.scan.value.due == {}
    case Write(t) => w.row.None? && t in w.cache
    case Delete => w.row.Some?
  }

  /** The recover list of an answer. */
  function Recovers(scan: Scan): set<string> {
    scan.toRecovers - scan.ignores
  }

  function Moved(w: Node, e: Move): Node
    requires WellFormed(w)
  {
    if !Enabled(w, e) then w
    else
      match e
      case Find(t) =>
        if t in w.cache then w.(adding := Some(w.cache[t]))
        else
          w.(heap := w.heap + [Object(t, Metric(0, 0, Init))], cache := w.cache[t := |w.heap|],
             adding := Some(|w.heap|))
      case Count(profiled) =>
        WithMetric(w, w.adding.value, Counted(w.heap[w.adding.value].metric, profiled)).(adding := None)
      case Begin => w.(scan := Some(Scan(w.cache.Keys, {}, None, {}, {}, {})))
      case Load(t) =>
        var scan := w.scan.value;
        w.(scan := Some(scan.(due := scan.due - {t}, seen := scan.seen + {t}, held := Some(w.cache[t]))))
      case Check =>
        var o := w.heap[w.scan.value.held.value];
        WithMetric(w, w.scan.value.held.value, Checked(o.metric))
          .(scan := Some(Visited(w.scan.value, PidUrl(o.tuple), o.metric)))
      case Answer => w.(agent := Apply(w.agent, w.scan.value.toCloses, Recovers(w.scan.value)), scan := None)
      case Write(t) => w.(row := Some(t))
      case Delete =>
        w.(cache := w.cache - {w.row.value}, row := None,
           scan := if w.scan.Some? then Some(w.scan.value.(due := w.scan.value.due - {w.row.value})) else None)
  }

  lemma MovedWellFormed(w: Node, e: Move)
    requires WellFormed(w)
    ensures WellFormed(Moved(w, e))
  {
    if Enabled(w, e) {
      match e
      case Find(t) => FindWellFormed(w, t);
      case Count(profiled) => WithMetricWellFormed(w, w.adding.value, Counted(w.heap[w.adding.value].metric, profiled));
      case Begin =>
      case Load(t) =>
      case Check => WithMetricWellFormed(w, w.scan.value.held.value, Checked(w.heap[w.scan.value.held.value].metric));
      case Answer =>
      case Write(t) =>
      case Delete =>
    }
  }

  lemma FindWellFormed(w: Node, t: Tuple)
    requires WellFormed(w)
    ensures WellFormed(Moved(w, Find(t)))
  {
  }

  lemma WithMetricWellFormed(w: Node, i: nat, m: Metric)
    requires WellFormed(w) && i < |w.heap|
    ensures WellFormed(WithMetric(w, i, m))
  {
  }

  function After(w: Node, es: seq<Move>): (v: Node)
    requires WellFormed(w)
    ensures WellFormed(v)
  {
    if es == [] then w
    else
      var v := After(w, es[..|es| - 1]);
      MovedWellFormed(v, es[|es| - 1]);
      Moved(v, es[|es| - 1])
  }

  lemma {:induction false} AfterConcat(w: Node, a: seq<Move>, b: seq<Move>)
    requires WellFormed(w)
    ensures After(w, a + b) == After(After(w, a), b)
  {
    if b == [] {
      assert a + b == a;
    } else {
      assert (a + b)[..|a + b| - 1] == a + b[..|b| - 1];
      AfterConcat(w, a, b[..|b| - 1]);
    }
  }

  // ---------------------------------------------------------------- what matters for the silence

  /**
   The metrics that the tuples have, the agent's set, and of a poll under way its
   sets and the tuples that it has still to check: due, or loaded and not deleted
   since.
   */
  datatype Silence = Silence(
    live: Signals,
    agent: set<string>,
    polling: bool,
    unchecked: set<Tuple>,
    toCloses: set<string>,
    toRecovers: set<string>,
    ignores: set<string>)

  function Unchecked(w: Node): set<Tuple>
    requires WellFormed(w) && w.scan.Some?
  {
    var scan := w.scan.value;
    scan.due + (if scan.held.Some? && IsLive(w, scan.held.value) then {w.heap[scan.held.value].tuple} else {})
  }

  function View(w: Node): Silence
    requires WellFormed(w)
  {
    if w.scan.None? then Silence(Live(w), w.agent, false, {}, {}, {}, {})
    else
      var scan := w.scan.value;
      Silence(Live(w), w.agent, true, Unchecked(w), scan.toCloses, scan.toRecovers, scan.ignores)
  }

  function Noted(s: Silence, url: string, m: Metric): Silence {
    s.(toCloses := if Opens(m) then s.toCloses + {url} else s.toCloses,
       toRecovers := if Heals(m) then s.toRecovers + {url} else s.toRecovers,
       ignores := if Checked(m).status.Closing? then s.ignores + {url} else s.ignores)
  }

  /** What an enabled step does to it. */
  function Effect(w: Node, e: Move): Silence
    requires WellFormed(w) && Enabled(w, e)
  {
    var s := View(w);
    match e
    case Find(t) => if t in s.live then s else s.(live := s.live[t := Metric(0, 0, Init)])
    case Count(profiled) =>
      var o := w.heap[w.adding.value];
      if IsLive(w, w.adding.value) then s.(live := s.live[o.tuple := Counted(o.metric, profiled)]) else s
    case Begin => Silence(s.live, s.agent, true, s.live.Keys, {}, {}, {})
    case Load(t) => s.(unchecked := s.unchecked + {t})
    case Check =>
      var o := w.heap[w.scan.value.held.value];
      if IsLive(w, w.scan.value.held.value)
      then Noted(s, PidUrl(o.tuple), o.metric)
             .(live := s.live[o.tuple := Checked(o.metric)], unchecked := s.unchecked - {o.tuple})
      else Noted(s, PidUrl(o.tuple), o.metric)
    case Answer => Silence(s.live, Apply(s.agent, s.toCloses, s.toRecovers - s.ignores), false, {}, {}, {}, {})
    case Write(t) => s
    case Delete => s.(live := s.live - {w.row.value}, unchecked := s.unchecked - {w.row.value})
  }

  lemma ViewMoved(w: Node, e: Move)
    requires WellFormed(w)
    ensures WellFormed(Moved(w, e))
    ensures View(Moved(w, e)) == if Enabled(w, e) then Effect(w, e) else View(w)
  {
    MovedWellFormed(w, e);
    if Enabled(w, e) {
      match e
      case Find(t) => ViewFind(w, t);
      case Count(profiled) => ViewCount(w, profiled);
      case Begin =>
      case Load(t) => ViewLoad(w, t);
      case Check => ViewCheck(w);
      case Answer =>
      case Write(t) =>
      case Delete => ViewDelete(w);
    }
  }

  lemma ViewFind(w: Node, t: Tuple)
    requires WellFormed(w) && Enabled(w, Find(t))
    ensures WellFormed(Moved(w, Find(t))) && View(Moved(w, Find(t))) == Effect(w, Find(t))
  {
    MovedWellFormed(w, Find(t));
    if t !in w.cache {
      FindLive(w, t);
      FindUnchecked(w, t);
    }
  }

  lemma FindLive(w: Node, t: Tuple)
    requires WellFormed(w) && Enabled(w, Find(t)) && t !in w.cache && WellFormed(Moved(w, Find(t)))
    ensures Live(Moved(w, Find(t))) == Live(w)[t := Metric(0, 0, Init)]
  {
  }

  lemma FindUnchecked(w: Node, t: Tuple)
    requires WellFormed(w) && Enabled(w, Find(t)) && t !in w.cache && WellFormed(Moved(w, Find(t)))
    ensures w.scan.Some? ==> Unchecked(Moved(w, Find(t))) == Unchecked(w)
  {
  }

  /** One object gets another metric. */
  lemma LiveWith(w: Node, i: nat, m: Metric)
    requires WellFormed(w) && i < |w.heap|
    ensures WellFormed(WithMetric(w, i, m))
    ensures Live(WithMetric(w, i, m)) == if IsLive(w, i) then Live(w)[w.heap[i].tuple := m] else Live(w)
    ensures w.scan.Some? ==> Unchecked(WithMetric(w, i, m)) == Unchecked(w)
  {
  }

  lemma ViewCount(w: Node, profiled: bool)
    requires WellFormed(w) && Enabled(w, Count(profiled))
    ensures WellFormed(Moved(w, Count(profiled))) && View(Moved(w, Count(profiled))) == Effect(w, Count(profiled))
  {
    var i := w.adding.value;
    MovedWellFormed(w, Count(profiled));
    LiveWith(w, i, Counted(w.heap[i].metric, profiled));
  }

  lemma ViewLoad(w: Node, t: Tuple)
    requires WellFormed(w) && Enabled(w, Load(t))
    ensures WellFormed(Moved(w, Load(t))) && View(Moved(w, Load(t))) == Effect(w, Load(t))
  {
    MovedWellFormed(w, Load(t));
    var v := Moved(w, Load(t));
    assert IsLive(v, v.scan.value.held.value);
    assert Unchecked(v) == Unchecked(w) + {t};
  }

  lemma ViewCheck(w: Node)
    requires WellFormed(w) && Enabled(w, Check)
    ensures WellFormed(Moved(w, Check)) && View(Moved(w, Check)) == Effect(w, Check)
  {
    var i := w.scan.value.held.value;
    MovedWellFormed(w, Check);
    LiveWith(w, i, Checked(w.heap[i].metric));
    assert w.scan.value.due == Unchecked(w) - (if IsLive(w, i) then {w.heap[i].tuple} else {});
  }

  lemma ViewDelete(w: Node)
    requires WellFormed(w) && Enabled(w, Delete)
    ensures WellFormed(Moved(w, Delete)) && View(Moved(w, Delete)) == Effect(w, Delete)
  {
    MovedWellFormed(w, Delete);
    var v := Moved(w, Delete);
    assert Live(v) == Live(w) - {w.row.value};
    assert w.scan.Some? ==> Unchecked(v) == Unchecked(w) - {w.row.value};
  }

  lemma AfterOne(w: Node, e: Move)
    requires WellFormed(w)
    ensures WellFormed(Moved(w, e)) && After(w, [e]) == Moved(w, e)
  {
    MovedWellFormed(w, e);
    assert [e][..0] == [];
  }

  /** A report that nothing interrupts is the one-step report of SilentSwitch. */
  lemma QuietReportIsAdd(w: Node, t: Tuple, profiled: bool)
    requires WellFormed(w) && w.adding.None?
    ensures WellFormed(Moved(w, Find(t))) && WellFormed(Moved(Moved(w, Find(t)), Count(profiled)))
    ensures Live(Moved(Moved(w, Find(t)), Count(profiled))) == Added(Live(w), t, profiled)
  {
    FoundIsLive(w, t);
    CountFound(Moved(w, Find(t)), t, profiled);
  }

  lemma CountFound(v: Node, t: Tuple, profiled: bool)
    requires WellFormed(v) && v.adding.Some? && IsLive(v, v.adding.value) && v.heap[v.adding.value].tuple == t
    ensures WellFormed(Moved(v, Count(profiled)))
    ensures t in Live(v) && Live(Moved(v, Count(profiled))) == Live(v)[t := Counted(Live(v)[t], profiled)]
  {
    ViewMoved(v, Count(profiled));
  }

  lemma FoundIsLive(w: Node, t: Tuple)
    requires WellFormed(w) && w.adding.None?
    ensures var v := Moved(w, Find(t));
      && WellFormed(v) && v.adding.Some? && IsLive(v, v.adding.value) && v.heap[v.adding.value].tuple == t
      && Live(v) == if t in Live(w) then Live(w) else Live(w)[t := Metric(0, 0, Init)]
  {
    ViewMoved(w, Find(t));
  }

  // ---------------------------------------------------------------- what every step keeps

  /** The pid-urls of those among the tuples that are Closing. */
  function ClosingAmong(s: Signals, ts: set<Tuple>): set<string> {
    set t | t in s && t in ts && s[t].status.Closing? :: PidUrl(t)
  }

  /** Some Closing tuple among those given, other than t, has the pid-url of t. */
  ghost predicate Another(s: Signals, ts: set<Tuple>, t: Tuple) {
    exists u :: u in s && u in ts && u != t && s[u].status.Closing? && PidUrl(u) == PidUrl(t)
  }

  /** Everything Closing is or will be silenced by the agent, and the answer under way will not recover it. */
  ghost predicate Covered(s: Silence) {
    if !s.polling then ClosingUrls(s.live) <= s.agent
    else
      && ClosingUrls(s.live) <= s.agent + s.toCloses
      && s.toCloses <= s.ignores
      && s.unchecked <= s.live.Keys
      && forall t :: t in s.live && s.live[t].status.Closing? ==> t in s.unchecked || PidUrl(t) in s.ignores
  }

  /** The agent's set when the poll under way is answered, sparing what it will still find Closing. */
  function Settled(s: Silence): set<string> {
    if !s.polling then s.agent
    else (s.agent + s.toCloses) - ((s.toRecovers - s.ignores) - ClosingAmong(s.live, s.unchecked))
  }

  /** The agent silences the pid-url, after the answer under way, although no tuple of it is Closing. */
  predicate Stray(s: Silence, url: string) {
    url in Settled(s) && url !in ClosingUrls(s.live)
  }

  /** The agent is exact, or the answer under way makes it so. */
  predicate Aligned(s: Silence) {
    Settled(s) == ClosingUrls(s.live)
  }

  lemma AlignedIsNoStray(s: Silence)
    requires Covered(s)
    ensures Aligned(s) <==> forall url :: !Stray(s, url)
  {
    forall url | url in ClosingUrls(s.live)
      ensures url in Settled(s)
    {
      StillSettled(s, url);
    }
    if forall url :: !Stray(s, url) {
      forall url | url in Settled(s)
        ensures url in ClosingUrls(s.live)
      {
        assert !Stray(s, url);
      }
    }
  }

  ghost predicate SameStray(s: Silence, v: Silence) {
    forall url :: Stray(v, url) <==> Stray(s, url)
  }

  /** Only one pid-url changes: it becomes stray, or ceases to be, or neither. */
  ghost predicate StrayMoves(s: Silence, v: Silence, url: string, parts: bool, joins: bool) {
    && (forall x :: x != url ==> (Stray(v, x) <==> Stray(s, x)))
    && (Stray(v, url) <==> parts || (Stray(s, url) && !joins))
  }

  lemma StatusesSame(a: Signals, b: Signals, ts: set<Tuple>)
    requires forall t :: t in a && a[t].status.Closing? ==> t in b && b[t].status.Closing?
    requires forall t :: t in b && b[t].status.Closing? ==> t in a && a[t].status.Closing?
    ensures ClosingUrls(a) == ClosingUrls(b) && ClosingAmong(a, ts) == ClosingAmong(b, ts)
  {
  }

  /** One tuple changes: only its own pid-url can come or go. */
  lemma AmongChanged(a: Signals, ts: set<Tuple>, b: Signals, us: set<Tuple>, t: Tuple)
    requires forall u :: u != t ==> (u in a <==> u in b) && (u in ts <==> u in us) && (u in a ==> a[u] == b[u])
    ensures forall url :: url != PidUrl(t) ==> (url in ClosingAmong(a, ts) <==> url in ClosingAmong(b, us))
    ensures PidUrl(t) in ClosingAmong(b, us) <==> (t in b && t in us && b[t].status.Closing?) || Another(a, ts, t)
    ensures PidUrl(t) in ClosingAmong(a, ts) <==> (t in a && t in ts && a[t].status.Closing?) || Another(a, ts, t)
  {
  }

  lemma LiveAmong(s: Signals)
    ensures ClosingUrls(s) == ClosingAmong(s, s.Keys)
  {
  }

  /** A deleted metric that the check opens, or leaves Closing although the agent is about to recover its pid-url. */
  predicate StrayClosing(m: Metric, recovering: bool) {
    Opens(m) || (recovering && Checked(m).status.Closing?)
  }

  /**
   The steps that part the agent from the Closing tuples: the check of a metric
   whose tuple was deleted after it was loaded, if it ends up Closing and no
   tuple is; the healing of the last Closing tuple of a pid-url that is on the
   ignore list, for a tuple deleted since; the deletion of the last Closing tuple
   of a pid-url, unless the poll under way already recovers it.
   */
  ghost predicate Breaks(w: Node, e: Move)
    requires WellFormed(w)
  {
    Enabled(w, e) &&
    match e
    case Check =>
      var i := w.scan.value.held.value;
      var t, m := w.heap[i].tuple, w.heap[i].metric;
      if IsLive(w, i) then Heals(m) && PidUrl(t) in w.scan.value.ignores && !Another(Live(w), w.cache.Keys, t)
      else
        && StrayClosing(m, PidUrl(t) in w.agent && PidUrl(t) in Recovers(w.scan.value))
        && PidUrl(t) !in ClosingUrls(Live(w))
    case Delete =>
      var t := w.row.value;
      && Live(w)[t].status.Closing? && !Another(Live(w), w.cache.Keys, t)
      && (w.scan.Some? ==> PidUrl(t) !in Recovers(w.scan.value))
    case _ => false
  }

  lemma FindKeeps(s: Silence, t: Tuple)
    requires Covered(s) && t !in s.live
    ensures var v := s.(live := s.live[t := Metric(0, 0, Init)]);
      Covered(v) && SameStray(s, v)
  {
    StatusesSame(s.live, s.live[t := Metric(0, 0, Init)], s.unchecked);
  }

  lemma CountKeeps(s: Silence, t: Tuple, profiled: bool)
    requires Covered(s) && t in s.live
    ensures var v := s.(live := s.live[t := Counted(s.live[t], profiled)]);
      Covered(v) && SameStray(s, v)
  {
    StatusesSame(s.live, s.live[t := Counted(s.live[t], profiled)], s.unchecked);
  }

  lemma BeginKeeps(s: Silence)
    requires Covered(s) && !s.polling
    ensures var v := Silence(s.live, s.agent, true, s.live.Keys, {}, {}, {});
      Covered(v) && SameStray(s, v)
  {
  }

  lemma LoadKeeps(s: Silence, t: Tuple)
    requires Covered(s) && s.polling && t in s.live
    ensures var v := s.(unchecked := s.unchecked + {t});
      Covered(v) && SameStray(s, v)
  {
    var v := s.(unchecked := s.unchecked + {t});
    AmongChanged(s.live, s.unchecked, s.live, v.unchecked, t);
    assert t in s.unchecked ==> v == s;
    assert Settled(v) == Settled(s);
  }

  lemma AnswerKeeps(s: Silence)
    requires Covered(s) && s.polling && s.unchecked == {}
    ensures var v := Silence(s.live, Apply(s.agent, s.toCloses, s.toRecovers - s.ignores), false, {}, {}, {}, {});
      Covered(v) && SameStray(s, v)
  {
    forall url | url in ClosingUrls(s.live)
      ensures url in s.ignores
    {
      var t :| t in s.live && s.live[t].status.Closing? && PidUrl(t) == url;
    }
    assert ClosingAmong(s.live, {}) == {};
  }

  lemma OrphanKeeps(s: Silence, t: Tuple, m: Metric)
    requires Covered(s) && s.polling
    ensures var v, url := Noted(s, PidUrl(t), m), PidUrl(t);
      && Covered(v)
      && StrayMoves(s, v, url,
           StrayClosing(m, url in s.agent && url in s.toRecovers - s.ignores) && url !in ClosingUrls(s.live),
           Heals(m) && url !in s.ignores)
  {
    var v, url := Noted(s, PidUrl(t), m), PidUrl(t);
    assert forall x :: x != url ==> (x in Settled(v) <==> x in Settled(s));
    if url in ClosingUrls(s.live) {
      StillSettled(s, url);
    }
  }

  /** What is Closing among the unchecked is Closing. */
  lemma StillSettled(s: Silence, url: string)
    requires Covered(s) && url in ClosingUrls(s.live)
    ensures url in Settled(s)
  {
    var t :| t in s.live && s.live[t].status.Closing? && PidUrl(t) == url;
    assert s.polling && t in s.unchecked ==> url in ClosingAmong(s.live, s.unchecked);
  }

  lemma CheckKeeps(s: Silence, t: Tuple)
    requires Covered(s) && s.polling && t in s.live && t in s.unchecked
    ensures var v := Noted(s, PidUrl(t), s.live[t])
                       .(live := s.live[t := Checked(s.live[t])], unchecked := s.unchecked - {t});
      && Covered(v)
      && StrayMoves(s, v, PidUrl(t),
           Heals(s.live[t]) && PidUrl(t) in s.ignores && !Another(s.live, s.live.Keys, t), Opens(s.live[t]))
  {
    var v := Noted(s, PidUrl(t), s.live[t]).(live := s.live[t := Checked(s.live[t])], unchecked := s.unchecked - {t});
    AmongChanged(s.live, s.unchecked, v.live, v.unchecked, t);
    AmongChanged(s.live, s.live.Keys, v.live, v.live.Keys, t);
    LiveAmong(s.live);
    LiveAmong(v.live);
  }

  lemma DeleteKeeps(s: Silence, t: Tuple)
    requires Covered(s) && t in s.live
    ensures var v := s.(live := s.live - {t}, unchecked := s.unchecked - {t});
      && Covered(v)
      && StrayMoves(s, v, PidUrl(t),
           && s.live[t].status.Closing? && !Another(s.live, s.live.Keys, t)
           && (s.polling ==> PidUrl(t) !in s.toRecovers - s.ignores),
           false)
  {
    var v := s.(live := s.live - {t}, unchecked := s.unchecked - {t});
    AmongChanged(s.live, s.unchecked, v.live, v.unchecked, t);
    AmongChanged(s.live, s.live.Keys, v.live, v.live.Keys, t);
    LiveAmong(s.live);
    LiveAmong(v.live);
  }

  /** The pid-url that a check or a deletion is about. */
  function UrlOf(w: Node, e: Move): string
    requires WellFormed(w) && Enabled(w, e) && (e.Check? || e.Delete?)
  {
    PidUrl(if e.Check? then w.heap[w.scan.value.held.value].tuple else w.row.value)
  }

  /** The step parts the agent from the Closing tuples at the pid-url. */
  ghost predicate Parts(w: Node, e: Move, url: string)
    requires WellFormed(w)
  {
    Breaks(w, e) && url == UrlOf(w, e)
  }

  /**
   The step ends that: a check opens a tuple of the pid-url, or heals a deleted
   one while the pid-url is not on the ignore list, so that it is recovered.
   */
  predicate Joins(w: Node, e: Move, url: string)
    requires WellFormed(w)
  {
    && e.Check? && Enabled(w, e) && url == UrlOf(w, e)
    && var i := w.scan.value.held.value;
       if IsLive(w, i) then Opens(w.heap[i].metric) else Heals(w.heap[i].metric) && url !in w.scan.value.ignores
  }

  /** The law of one step, for every pid-url. */
  lemma MoveKeeps(w: Node, e: Move)
    requires WellFormed(w) && Covered(View(w))
    ensures WellFormed(Moved(w, e)) && Covered(View(Moved(w, e)))
    ensures forall url :: Stray(View(Moved(w, e)), url) <==>
      (Parts(w, e, url) || (Stray(View(w), url) && !Joins(w, e, url)))
  {
    ViewMoved(w, e);
    if Enabled(w, e) {
      if e.Check? {
        CheckMove(w);
      } else if e.Delete? {
        DeleteMove(w);
      } else {
        OtherMove(w, e);
      }
    }
  }

  /** Every other step leaves the stray pid-urls as they are. */
  lemma OtherMove(w: Node, e: Move)
    requires WellFormed(w) && Covered(View(w)) && Enabled(w, e) && !e.Check? && !e.Delete?
    ensures Covered(Effect(w, e)) && SameStray(View(w), Effect(w, e))
  {
    var s := View(w);
    match e
    case Find(t) =>
      if t !in s.live {
        FindKeeps(s, t);
      }
    case Count(profiled) =>
      if IsLive(w, w.adding.value) {
        CountKeeps(s, w.heap[w.adding.value].tuple, profiled);
      }
    case Begin => BeginKeeps(s);
    case Load(t) => LoadKeeps(s, t);
    case Answer => AnswerKeeps(s);
    case Write(t) =>
  }

  lemma DeleteMove(w: Node)
    requires WellFormed(w) && Covered(View(w)) && Enabled(w, Delete)
    ensures Covered(Effect(w, Delete))
    ensures forall url :: Stray(Effect(w, Delete), url) <==> Parts(w, Delete, url) || Stray(View(w), url)
  {
    DeleteKeeps(View(w), w.row.value);
  }

  lemma CheckMove(w: Node)
    requires WellFormed(w) && Covered(View(w)) && Enabled(w, Check)
    ensures Covered(Effect(w, Check))
    ensures forall url :: Stray(Effect(w, Check), url) <==>
      (Parts(w, Check, url) || (Stray(View(w), url) && !Joins(w, Check, url)))
  {
    var s, o := View(w), w.heap[w.scan.value.held.value];
    if IsLive(w, w.scan.value.held.value) {
      CheckKeeps(s, o.tuple);
    } else {
      OrphanKeeps(s, o.tuple, o.metric);
    }
  }

  // ---------------------------------------------------------------- runs

  /** Whatever interleaves: between polls the agent silences everything in Closing. */
  lemma {:induction false} RestCovers(es: seq<Move>)
    ensures Covered(View(After(IDLE, es)))
    ensures After(IDLE, es).scan.None? ==> ClosingUrls(Live(After(IDLE, es))) <= After(IDLE, es).agent
  {
    if es != [] {
      RestCovers(es[..|es| - 1]);
      MoveKeeps(After(IDLE, es[..|es| - 1]), es[|es| - 1]);
    }
  }

  ghost predicate AlignedAfter(es: seq<Move>, k: nat)
    requires k <= |es|
  {
    Aligned(View(After(IDLE, es[..k])))
  }

  ghost predicate BreaksAt(es: seq<Move>, k: nat)
    requires k < |es|
  {
    Breaks(After(IDLE, es[..k]), es[k])
  }

  datatype Turn = Never | Parted | Joined

  /** What the last step of a run did that parted the agent from the tuples at the pid-url, or joined them there. */
  ghost function LastTurn(es: seq<Move>, url: string): Turn {
    if es == [] then Never
    else
      var n := |es| - 1;
      if Parts(After(IDLE, es[..n]), es[n], url) then Parted
      else if Joins(After(IDLE, es[..n]), es[n], url) then Joined
      else LastTurn(es[..n], url)
  }

  /** A pid-url is stray exactly if the last such step parted. */
  lemma {:induction false} StrayIff(es: seq<Move>, url: string)
    ensures Stray(View(After(IDLE, es)), url) <==> LastTurn(es, url) == Parted
  {
    if es != [] {
      var n := |es| - 1;
      StrayIff(es[..n], url);
      RestCovers(es[..n]);
      MoveKeeps(After(IDLE, es[..n]), es[n]);
    }
  }

  lemma ExactIsNoStray(w: Node)
    requires WellFormed(w) && w.scan.None? && Covered(View(w))
    ensures w.agent == ClosingUrls(Live(w)) <==> forall url :: !Stray(View(w), url)
  {
    AlignedIsNoStray(View(w));
  }

  /**
   Over every run: between polls the agent silences exactly what is Closing if
   and only if every step that parted them at some pid-url was followed by one
   that joined them there.
   */
  lemma RestExactIff(es: seq<Move>)
    requires After(IDLE, es).scan.None?
    ensures After(IDLE, es).agent == ClosingUrls(Live(After(IDLE, es))) <==> forall url :: LastTurn(es, url) != Parted
  {
    var w := After(IDLE, es);
    RestCovers(es);
    ExactIsNoStray(w);
    if w.agent == ClosingUrls(Live(w)) {
      forall url
        ensures LastTurn(es, url) != Parted
      {
        assert !Stray(View(w), url);
        StrayIff(es, url);
      }
    } else {
      var url :| Stray(View(w), url);
      StrayIff(es, url);
    }
  }

  /** After every step alike, polls under way included: they are never parted exactly if no step parts them. */
  lemma AlignedIff(es: seq<Move>)
    ensures (forall k: nat :: k <= |es| ==> AlignedAfter(es, k)) <==> (forall k: nat :: k < |es| ==> !BreaksAt(es, k))
  {
    forall k: nat | k < |es| && AlignedAfter(es, k)
      ensures AlignedAfter(es, k + 1) <==> !BreaksAt(es, k)
    {
      AlignedNext(es, k);
    }
    var p, q := (k: nat) => k <= |es| && AlignedAfter(es, k), (k: nat) => k < |es| && BreaksAt(es, k);
    assert es[..0] == [] && AlignedAfter(es, 0);
    KeptAllAlong(p, q, |es|);
    assert forall k: nat :: k <= |es| ==> p(k) == AlignedAfter(es, k);
    assert forall k: nat :: k < |es| ==> q(k) == BreaksAt(es, k);
  }

  lemma AlignedNext(es: seq<Move>, k: nat)
    requires k < |es| && AlignedAfter(es, k)
    ensures AlignedAfter(es, k + 1) <==> !BreaksAt(es, k)
  {
    var w := After(IDLE, es[..k]);
    RestCovers(es[..k]);
    MoveKeeps(w, es[k]);
    assert es[..k + 1][..k] == es[..k];
    AlignedIsNoStray(View(w));
    AlignedIsNoStray(View(Moved(w, es[k])));
    if BreaksAt(es, k) {
      assert Parts(w, es[k], UrlOf(w, es[k]));
    }
  }

  /** Without such a step the agent between polls silences exactly what is Closing. */
  lemma RestExact(es: seq<Move>)
    requires forall k: nat :: k < |es| ==> !BreaksAt(es, k)
    ensures After(IDLE, es).scan.None? ==> After(IDLE, es).agent == ClosingUrls(Live(After(IDLE, es)))
  {
    AlignedIff(es);
    assert es[..|es|] == es;
    assert AlignedAfter(es, |es|);
  }

  /** The deletion of a tuple that is Closing, or that the poll under way has loaded and not yet checked. */
  predicate Touchy(w: Node, e: Move)
    requires WellFormed(w)
  {
    && e.Delete? && w.row.Some?
    && (Live(w)[w.row.value].status.Closing?
        || (w.scan.Some? && w.scan.value.held.Some? && w.heap[w.scan.value.held.value].tuple == w.row.value))
  }

  /** The tuples that the poll under way has checked. */
  function Past(w: Node): set<Tuple>
    requires WellFormed(w) && w.scan.Some?
  {
    var scan := w.scan.value;
    scan.seen - (if scan.held.Some? then {w.heap[scan.held.value].tuple} else {})
  }

  /**
   The loaded metric is not deleted, and each pid-url on the ignore list is that of
   a checked tuple that is Closing.
   */
  ghost predicate Backed(w: Node)
    requires WellFormed(w)
  {
    w.scan.Some? ==>
      && (w.scan.value.held.Some? ==> IsLive(w, w.scan.value.held.value))
      && w.scan.value.ignores <= ClosingAmong(Live(w), Past(w))
  }

  lemma MoveBacked(w: Node, e: Move)
    requires WellFormed(w) && Backed(w) && !Touchy(w, e)
    ensures WellFormed(Moved(w, e)) && Backed(Moved(w, e)) && !Breaks(w, e)
  {
    ViewMoved(w, e);
    if Enabled(w, e) && w.scan.Some? {
      match e
      case Find(t) => FindBacked(w, t);
      case Count(profiled) => CountBacked(w, profiled);
      case Begin =>
      case Load(t) => LoadBacked(w, t);
      case Check => CheckBacked(w);
      case Answer =>
      case Write(t) =>
      case Delete => DeleteBacked(w);
    }
  }

  lemma FindBacked(w: Node, t: Tuple)
    requires WellFormed(w) && Backed(w) && w.scan.Some? && Enabled(w, Find(t))
    ensures WellFormed(Moved(w, Find(t))) && Backed(Moved(w, Find(t)))
  {
    ViewMoved(w, Find(t));
    AmongGrows(Live(w), Past(w), Live(Moved(w, Find(t))), Past(w));
  }

  lemma CountBacked(w: Node, profiled: bool)
    requires WellFormed(w) && Backed(w) && w.scan.Some? && Enabled(w, Count(profiled))
    ensures WellFormed(Moved(w, Count(profiled))) && Backed(Moved(w, Count(profiled)))
  {
    ViewMoved(w, Count(profiled));
    AmongGrows(Live(w), Past(w), Live(Moved(w, Count(profiled))), Past(w));
  }

  lemma LoadBacked(w: Node, t: Tuple)
    requires WellFormed(w) && Backed(w) && w.scan.Some? && Enabled(w, Load(t))
    ensures WellFormed(Moved(w, Load(t))) && Backed(Moved(w, Load(t)))
  {
    MovedWellFormed(w, Load(t));
    var v := Moved(w, Load(t));
    assert Past(v) == Past(w) && Live(v) == Live(w);
  }

  lemma CheckBacked(w: Node)
    requires WellFormed(w) && Backed(w) && w.scan.Some? && Enabled(w, Check)
    ensures WellFormed(Moved(w, Check)) && Backed(Moved(w, Check)) && !Breaks(w, Check)
  {
    ViewMoved(w, Check);
    var t, v := w.heap[w.scan.value.held.value].tuple, Moved(w, Check);
    assert Past(v) == Past(w) + {t} && t !in Past(w);
    AmongGrows(Live(w), Past(w), Live(v), Past(v));
    assert Live(v)[t].status.Closing? ==> PidUrl(t) in ClosingAmong(Live(v), Past(v));
    NoBreakHere(w, t);
  }

  lemma NoBreakHere(w: Node, t: Tuple)
    requires WellFormed(w) && Backed(w) && w.scan.Some? && Enabled(w, Check)
    requires t == w.heap[w.scan.value.held.value].tuple && t !in Past(w)
    ensures !Breaks(w, Check)
  {
    assert PidUrl(t) in ClosingAmong(Live(w), Past(w)) ==> Another(Live(w), w.cache.Keys, t);
  }

  lemma DeleteBacked(w: Node)
    requires WellFormed(w) && Backed(w) && w.scan.Some? && Enabled(w, Delete) && !Touchy(w, Delete)
    ensures WellFormed(Moved(w, Delete)) && Backed(Moved(w, Delete))
  {
    ViewMoved(w, Delete);
    AmongGrows(Live(w), Past(w), Live(Moved(w, Delete)), Past(w));
  }

  lemma AmongGrows(a: Signals, ts: set<Tuple>, b: Signals, us: set<Tuple>)
    requires forall t :: t in a && t in ts && a[t].status.Closing? ==> t in b && t in us && b[t].status.Closing?
    ensures ClosingAmong(a, ts) <= ClosingAmong(b, us)
  {
  }

  ghost predicate TouchyAt(es: seq<Move>, k: nat)
    requires k < |es|
  {
    Touchy(After(IDLE, es[..k]), es[k])
  }

  lemma TouchyPrefix(es: seq<Move>, n: nat)
    requires n <= |es|
    ensures forall k: nat :: k < n ==> TouchyAt(es[..n], k) == TouchyAt(es, k)
  {
    forall k: nat | k < n
      ensures TouchyAt(es[..n], k) == TouchyAt(es, k)
    {
      assert es[..n][..k] == es[..k];
    }
  }

  lemma {:induction false} BackedAlong(es: seq<Move>)
    requires forall k: nat :: k < |es| ==> !TouchyAt(es, k)
    ensures Backed(After(IDLE, es))
  {
    if es != [] {
      var n := |es| - 1;
      TouchyPrefix(es, n);
      BackedAlong(es[..n]);
      assert !TouchyAt(es, n);
      MoveBacked(After(IDLE, es[..n]), es[n]);
    }
  }

  /**
   Reports, and deletions of tuples that are neither Closing nor loaded, never
   part the agent from the Closing tuples, wherever they come in a poll.
   */
  lemma HarmlessDeletions(es: seq<Move>)
    requires forall k: nat :: k < |es| ==> !TouchyAt(es, k)
    ensures forall k: nat :: k < |es| ==> !BreaksAt(es, k)
  {
    forall k: nat | k < |es|
      ensures !BreaksAt(es, k)
    {
      TouchyPrefix(es, k);
      BackedAlong(es[..k]);
      assert !TouchyAt(es, k);
      MoveBacked(After(IDLE, es[..k]), es[k]);
    }
  }

  /** A deletion of a loaded tuple that does harm: the answer closes a pid-url that no tuple holds. */
  lemma StrayClose(t: Tuple)
    ensures var w := After(IDLE, [Find(t), Count(false), Begin, Load(t)] + [Write(t), Delete, Check, Answer]);
      w.agent == {PidUrl(t)} && w.cache == map[]
  {
    LoadedFresh(t);
    AfterConcat(IDLE, [Find(t), Count(false), Begin, Load(t)], [Write(t), Delete, Check, Answer]);
    StrayAnswer(t);
  }

  /** The first report of a tuple, and a poll that has loaded it. */
  function Loaded(t: Tuple): Node {
    Node([Object(t, Metric(1, 0, Init))], map[t := 0], {}, Some(Scan({}, {t}, Some(0), {}, {}, {})), None, None)
  }

  lemma StrayAnswer(t: Tuple)
    ensures WellFormed(Loaded(t))
    ensures var w := After(Loaded(t), [Write(t), Delete, Check, Answer]);
      w.agent == {PidUrl(t)} && w.cache == map[]
  {
    AfterFour(Loaded(t), Write(t), Delete, Check, Answer);
    StrayDelete(t);
    StrayCheck(t);
  }

  lemma StrayDelete(t: Tuple)
    ensures WellFormed(Loaded(t)) && WellFormed(Moved(Loaded(t), Write(t)))
    ensures Moved(Moved(Loaded(t), Write(t)), Delete) == Loaded(t).(cache := map[])
  {
    assert Moved(Loaded(t), Write(t)) == Loaded(t).(row := Some(t));
    assert map[t := 0] - {t} == map[] && {} - {t} == {};
  }

  lemma StrayCheck(t: Tuple)
    ensures WellFormed(Loaded(t).(cache := map[]))
    ensures var v := Moved(Loaded(t).(cache := map[]), Check);
      v.scan == Some(Scan({}, {t}, None, {PidUrl(t)}, {}, {PidUrl(t)})) && v.cache == map[] && v.agent == {}
  {
    var m := Metric(1, 0, Init);
    assert Opens(m) && !Heals(m) && Checked(m).status.Closing?;
    assert {} + {PidUrl(t)} == {PidUrl(t)};
  }

  lemma LoadedFresh(t: Tuple)
    ensures After(IDLE, [Find(t), Count(false), Begin, Load(t)]) == Loaded(t)
  {
    AfterFour(IDLE, Find(t), Count(false), Begin, Load(t));
    var w1 := Moved(IDLE, Find(t));
    assert w1 == Node([Object(t, Metric(0, 0, Init))], map[t := 0], {}, None, Some(0), None);
    var w2 := Moved(w1, Count(false));
    assert w2 == Node([Object(t, Metric(1, 0, Init))], map[t := 0], {}, None, None, None);
    var w3 := Moved(w2, Begin);
    assert map[t := 0].Keys == {t};
    assert w3 == w2.(scan := Some(Scan({t}, {}, None, {}, {}, {})));
    assert {t} - {t} == {} && {} + {t} == {t};
  }

  lemma AfterTwo(w: Node, es: seq<Move>, e: Move, f: Move)
    requires WellFormed(w)
    ensures WellFormed(Moved(After(w, es), e))
    ensures After(w, es + [e, f]) == Moved(Moved(After(w, es), e), f)
  {
    var all := es + [e, f];
    assert all[..|all| - 1] == es + [e] && (es + [e])[..|es|] == es;
    MovedWellFormed(After(w, es), e);
  }

  lemma AfterFour(w: Node, a: Move, b: Move, c: Move, d: Move)
    requires WellFormed(w)
    ensures WellFormed(Moved(w, a)) && WellFormed(Moved(Moved(w, a), b)) && WellFormed(Moved(Moved(Moved(w, a), b), c))
    ensures After(w, [a, b, c, d]) == Moved(Moved(Moved(Moved(w, a), b), c), d)
  {
    AfterTwo(w, [], a, b);
    AfterTwo(w, [a, b], c, d);
    assert [] + [a, b] == [a, b] && [a, b] + [c, d] == [a, b, c, d];
    MovedWellFormed(Moved(w, a), b);
    MovedWellFormed(Moved(Moved(w, a), b), c);
  }

  /** No answer closes and recovers the same pid-url, however the poll was interrupted. */
  lemma AnswersDisjoint(es: seq<Move>)
    requires After(IDLE, es).scan.Some?
    ensures After(IDLE, es).scan.value.toCloses !! Recovers(After(IDLE, es).scan.value)
  {
    RestCovers(es);
  }
}
