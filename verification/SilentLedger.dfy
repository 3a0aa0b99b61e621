/**
 Polls that nothing disturbs, and the reports that the collector misses, in the
 small steps of SilentScan.dfy (pkg/componment/profile/signal_cache.go).
 */
module SilentLedger {
  import opened Basics
  import opened SilentSwitch
  import opened SilentScan

  // ---------------------------------------------------------------- an undisturbed poll

  function Visit(t: Tuple): seq<Move> {
    [Load(t), Check]
  }

  function Visits(order: seq<Tuple>): seq<Move> {
    if order == [] then [] else Visits(order[..|order| - 1]) + Visit(order[|order| - 1])
  }

  function HalfChecked(s: Signals, todo: set<Tuple>): Signals {
    map t | t in s :: if t in todo then s[t] else Checked(s[t])
  }

  /** A poll that began at w and has still to visit todo, with nothing in between. */
  ghost predicate HalfPolled(w: Node, v: Node, todo: set<Tuple>) {
    && WellFormed(w) && WellFormed(v) && v.scan.Some? && v.scan.value.held.None?
    && v.cache == w.cache && v.agent == w.agent && HalfSets(Live(w), Live(v), v.scan.value, todo)
  }

  ghost predicate HalfSets(s: Signals, now: Signals, scan: Scan, todo: set<Tuple>) {
    && todo <= s.Keys && scan.due == todo && scan.seen == s.Keys - todo && now == HalfChecked(s, todo)
    && Folded(Part(s, todo), scan.toCloses, scan.toRecovers, scan.ignores)
  }

  lemma HalfSetsStep(s: Signals, now: Signals, scan: Scan, todo: set<Tuple>, key: Tuple)
    requires HalfSets(s, now, scan, todo) && key in todo
    ensures key in now && now[key] == s[key]
    ensures HalfSets(s, now[key := Checked(s[key])],
                     Visited(scan.(due := scan.due - {key}, seen := scan.seen + {key}), PidUrl(key), s[key]),
                     todo - {key})
  {
    PartGrows(s, todo, key, scan.toCloses, scan.toRecovers, scan.ignores);
    assert s.Keys - (todo - {key}) == s.Keys - todo + {key};
    HalfCheckedStep(s, todo, key);
  }

  lemma HalfCheckedStep(s: Signals, todo: set<Tuple>, key: Tuple)
    requires key in todo && key in s
    ensures HalfChecked(s, todo)[key] == s[key]
    ensures HalfChecked(s, todo)[key := Checked(s[key])] == HalfChecked(s, todo - {key})
  {
  }

  lemma HalfPolledStep(w: Node, v: Node, todo: set<Tuple>, key: Tuple)
    requires HalfPolled(w, v, todo) && key in todo
    ensures WellFormed(Moved(v, Load(key)))
    ensures HalfPolled(w, Moved(Moved(v, Load(key)), Check), todo - {key})
  {
    HalfSetsStep(Live(w), Live(v), v.scan.value, todo, key);
    LoadedView(v, key);
  }

  lemma LoadedView(v: Node, key: Tuple)
    requires WellFormed(v) && v.scan.Some? && v.scan.value.held.None? && key in v.cache && key !in v.scan.value.seen
    ensures WellFormed(Moved(v, Load(key))) && WellFormed(Moved(Moved(v, Load(key)), Check))
    ensures var u, scan := Moved(Moved(v, Load(key)), Check), v.scan.value;
      && u.cache == v.cache && u.agent == v.agent && Live(u) == Live(v)[key := Checked(Live(v)[key])]
      && u.scan == Some(Visited(scan.(due := scan.due - {key}, seen := scan.seen + {key}), PidUrl(key), Live(v)[key]))
  {
    ViewMoved(v, Load(key));
    ViewMoved(Moved(v, Load(key)), Check);
  }

  /** The tuples that are not among the visited ones. */
  function Left(w: Node, visited: seq<Tuple>): set<Tuple> {
    w.cache.Keys - (set t | t in visited)
  }

  lemma LeftSnoc(w: Node, visited: seq<Tuple>, key: Tuple)
    ensures Left(w, visited + [key]) == Left(w, visited) - {key}
  {
    assert forall t :: t in visited + [key] <==> t in visited || t == key;
  }

  lemma NothingVisited(w: Node)
    requires WellFormed(w) && w.scan.None?
    ensures WellFormed(Moved(w, Begin)) && HalfPolled(w, Moved(w, Begin), Left(w, []))
  {
    MovedWellFormed(w, Begin);
    assert Left(w, []) == w.cache.Keys;
    assert HalfChecked(Live(w), w.cache.Keys) == Live(w);
  }

  lemma {:induction false} VisitsHalfPoll(w: Node, order: seq<Tuple>)
    requires WellFormed(w) && w.scan.None? && NoDup(order) && forall t :: t in order ==> t in w.cache
    ensures WellFormed(Moved(w, Begin))
    ensures HalfPolled(w, After(Moved(w, Begin), Visits(order)), Left(w, order))
  {
    if order == [] {
      NothingVisited(w);
      assert Visits(order) == [];
    } else {
      var n := |order| - 1;
      VisitsHalfPoll(w, order[..n]);
      assert order[n] !in order[..n];
      VisitOneMore(w, order[..n], order[n]);
      assert order[..n] + [order[n]] == order;
    }
  }

  lemma VisitOneMore(w: Node, init: seq<Tuple>, key: Tuple)
    requires WellFormed(w) && w.scan.None? && key in w.cache && key !in init
    requires WellFormed(Moved(w, Begin)) && HalfPolled(w, After(Moved(w, Begin), Visits(init)), Left(w, init))
    ensures HalfPolled(w, After(Moved(w, Begin), Visits(init + [key])), Left(w, init + [key]))
  {
    var start := Moved(w, Begin);
    HalfPolledStep(w, After(start, Visits(init)), Left(w, init), key);
    LeftSnoc(w, init, key);
    assert (init + [key])[..|init|] == init;
    AfterTwo(start, Visits(init), Load(key), Check);
  }

  /** With nothing in between, a poll in any order of the tuples is the one-step query of SilentSwitch. */
  lemma QuietPollIsQuery(w: Node, order: seq<Tuple>)
    requires WellFormed(w) && w.scan.None? && Lists(order, w.cache.Keys)
    ensures var v := After(w, [Begin] + Visits(order) + [Answer]);
      && v.scan.None? && v.cache == w.cache
      && Live(v) == Queried(Live(w)) && v.agent == Apply(w.agent, OpenedUrls(Live(w)), RecoverUrls(Live(w)))
  {
    VisitsHalfPoll(w, order);
    assert Left(w, order) == {};
    var v := After(Moved(w, Begin), Visits(order));
    AnswerIsQuery(w, v);
    AfterConcat(w, [Begin], Visits(order));
    AfterOne(w, Begin);
    AfterConcat(w, [Begin] + Visits(order), [Answer]);
    AfterOne(v, Answer);
  }

  lemma AnswerIsQuery(w: Node, v: Node)
    requires HalfPolled(w, v, {})
    ensures var u := Moved(v, Answer);
      && WellFormed(u) && u.scan.None? && u.cache == w.cache
      && Live(u) == Queried(Live(w)) && u.agent == Apply(w.agent, OpenedUrls(Live(w)), RecoverUrls(Live(w)))
  {
    ViewMoved(v, Answer);
    assert Part(Live(w), {}) == Live(w);
    assert HalfChecked(Live(w), {}) == Queried(Live(w));
  }

  // ---------------------------------------------------------------- what the collector misses

  /** An enabled count in a metric of the tuple. */
  predicate Counts(w: Node, e: Move, t: Tuple, profiledOnly: bool)
    requires WellFormed(w)
  {
    e.Count? && w.adding.Some? && w.heap[w.adding.value].tuple == t && (profiledOnly ==> e.profiled)
  }

  function CountIn(m: Metric, profiledOnly: bool): nat {
    if profiledOnly then m.success else m.total
  }

  /** What the counters of the tuple's metric say and no row does yet. */
  function Unwritten(w: Node, t: Tuple, profiledOnly: bool): nat
    requires WellFormed(w)
  {
    if w.row == Some(t) || t !in w.cache then 0 else CountIn(w.heap[w.cache[t]].metric, profiledOnly)
  }

  /**
   How many reports of the tuple a run counted, and how many of them came late: in
   a deleted metric, or one whose row is written.
   */
  function Reports(es: seq<Move>, t: Tuple, profiledOnly: bool): nat {
    if es == [] then 0
    else
      var n := |es| - 1;
      Reports(es[..n], t, profiledOnly) + (if Counts(After(IDLE, es[..n]), es[n], t, profiledOnly) then 1 else 0)
  }

  predicate Late(w: Node, e: Move, t: Tuple, profiledOnly: bool)
    requires WellFormed(w)
  {
    Counts(w, e, t, profiledOnly) && (w.row == Some(t) || !IsLive(w, w.adding.value))
  }

  function Missed(es: seq<Move>, t: Tuple, profiledOnly: bool): nat {
    if es == [] then 0
    else
      var n := |es| - 1;
      Missed(es[..n], t, profiledOnly) + (if Late(After(IDLE, es[..n]), es[n], t, profiledOnly) then 1 else 0)
  }

  /** What the rows of the tuple say in all. */
  function Written(es: seq<Move>, t: Tuple, profiledOnly: bool): nat {
    if es == [] then 0
    else
      var n := |es| - 1;
      var w := After(IDLE, es[..n]);
      Written(es[..n], t, profiledOnly) +
      (if es[n] == Write(t) && Enabled(w, es[n]) then CountIn(w.heap[w.cache[t]].metric, profiledOnly) else 0)
  }

  /** Every report is in a written row, in the counters that no row shows yet, or was late. */
  lemma {:induction false} ReportsAccounted(es: seq<Move>, t: Tuple, profiledOnly: bool)
    ensures Reports(es, t, profiledOnly) ==
      Written(es, t, profiledOnly) + Missed(es, t, profiledOnly) + Unwritten(After(IDLE, es), t, profiledOnly)
  {
    if es != [] {
      var n := |es| - 1;
      ReportsAccounted(es[..n], t, profiledOnly);
      UnwrittenMoves(After(IDLE, es[..n]), es[n], t, profiledOnly);
    }
  }

  lemma UnwrittenMoves(w: Node, e: Move, t: Tuple, profiledOnly: bool)
    requires WellFormed(w)
    ensures WellFormed(Moved(w, e))
    ensures Unwritten(Moved(w, e), t, profiledOnly) ==
      if e == Write(t) && Enabled(w, e) then 0
      else
        Unwritten(w, t, profiledOnly) +
        (if Counts(w, e, t, profiledOnly) && !Late(w, e, t, profiledOnly) then 1 else 0)
  {
    MovedWellFormed(w, e);
    RowMoves(w, e);
    UnwrittenIs(w, t, profiledOnly);
    UnwrittenIs(Moved(w, e), t, profiledOnly);
    CountMoves(w, e, t, profiledOnly);
  }

  lemma CountMoves(w: Node, e: Move, t: Tuple, profiledOnly: bool)
    requires WellFormed(w)
    ensures WellFormed(Moved(w, e))
    ensures CountOf(Live(Moved(w, e)), t, profiledOnly) ==
      if e.Delete? && w.row == Some(t) then 0
      else
        CountOf(Live(w), t, profiledOnly) +
        (if Counts(w, e, t, profiledOnly) && IsLive(w, w.adding.value) then 1 else 0)
  {
    ViewMoved(w, e);
    if Enabled(w, e) {
      EffectCount(w, e, t, profiledOnly);
    }
  }

  lemma EffectCount(w: Node, e: Move, t: Tuple, profiledOnly: bool)
    requires WellFormed(w) && Enabled(w, e)
    ensures CountOf(Effect(w, e).live, t, profiledOnly) ==
      if e.Delete? && w.row == Some(t) then 0
      else
        CountOf(Live(w), t, profiledOnly) +
        (if Counts(w, e, t, profiledOnly) && IsLive(w, w.adding.value) then 1 else 0)
  {
    match e
    case Find(u) =>
    case Count(profiled) => CountUnwritten(w, profiled, t, profiledOnly);
    case Begin =>
    case Load(u) =>
    case Check => CheckUnwritten(w, t, profiledOnly);
    case Answer =>
    case Write(u) =>
    case Delete =>
  }

  /** The counter of the tuple in the metrics, and in the row. */
  function CountOf(s: Signals, t: Tuple, profiledOnly: bool): nat {
    if t in s then CountIn(s[t], profiledOnly) else 0
  }

  lemma CountUnwritten(w: Node, profiled: bool, t: Tuple, profiledOnly: bool)
    requires WellFormed(w) && w.adding.Some?
    ensures var e := Count(profiled);
      CountOf(Effect(w, e).live, t, profiledOnly) == CountOf(Live(w), t, profiledOnly) +
      if Counts(w, e, t, profiledOnly) && IsLive(w, w.adding.value) then 1 else 0
  {
  }

  lemma CheckUnwritten(w: Node, t: Tuple, profiledOnly: bool)
    requires WellFormed(w) && Enabled(w, Check)
    ensures CountOf(Effect(w, Check).live, t, profiledOnly) == CountOf(Live(w), t, profiledOnly)
  {
  }

  lemma UnwrittenIs(w: Node, t: Tuple, profiledOnly: bool)
    requires WellFormed(w)
    ensures Unwritten(w, t, profiledOnly) == if w.row == Some(t) then 0 else CountOf(Live(w), t, profiledOnly)
  {
  }

  lemma RowMoves(w: Node, e: Move)
    requires WellFormed(w)
    ensures Moved(w, e).row ==
      if !Enabled(w, e) then w.row else if e.Write? then Some(e.tuple) else if e.Delete? then None else w.row
  {
  }

  ghost predicate LateAt(es: seq<Move>, i: nat, t: Tuple, profiledOnly: bool)
    requires i < |es|
  {
    Late(After(IDLE, es[..i]), es[i], t, profiledOnly)
  }

  lemma {:induction false} MissedIffLate(es: seq<Move>, t: Tuple, profiledOnly: bool)
    ensures Missed(es, t, profiledOnly) == 0 <==> forall i: nat :: i < |es| ==> !LateAt(es, i, t, profiledOnly)
  {
    if es != [] {
      var n := |es| - 1;
      MissedIffLate(es[..n], t, profiledOnly);
      forall i: nat | i < n
        ensures LateAt(es[..n], i, t, profiledOnly) == LateAt(es, i, t, profiledOnly)
      {
        LateAtPrefix(es, n, i, t, profiledOnly);
      }
      MissedNext(es, t, profiledOnly);
    }
  }

  lemma LateAtPrefix(es: seq<Move>, n: nat, i: nat, t: Tuple, profiledOnly: bool)
    requires i < n <= |es|
    ensures LateAt(es[..n], i, t, profiledOnly) == LateAt(es, i, t, profiledOnly)
  {
    assert es[..n][..i] == es[..i];
  }

  lemma MissedNext(es: seq<Move>, t: Tuple, profiledOnly: bool)
    requires es != []
    ensures Missed(es, t, profiledOnly) ==
      Missed(es[..|es| - 1], t, profiledOnly) + if LateAt(es, |es| - 1, t, profiledOnly) then 1 else 0
  {
  }

  /**
   The rows and the counters hold every report of a tuple, unless its row is
   just being written, if and only if none was counted in a deleted metric or
   between the writing of a row and the deletion that follows.
   */
  lemma NothingMissedIff(es: seq<Move>, t: Tuple, profiledOnly: bool)
    ensures Written(es, t, profiledOnly) + Unwritten(After(IDLE, es), t, profiledOnly) == Reports(es, t, profiledOnly)
      <==> forall i: nat :: i < |es| ==> !LateAt(es, i, t, profiledOnly)
  {
    ReportsAccounted(es, t, profiledOnly);
    MissedIffLate(es, t, profiledOnly);
  }
}
