/**
 Two tasks of one trace id share the list of its traces, and no lock guards it:
 Consume of pkg/analyzer/analyzer.go hands the same traces to a slow and an error
 task, and the workers that process them merge and store at the same time. A
 merge first reads the known spans and then, trace by trace, looks at the mark,
 stores and appends; storing the list looks at the mark and stores, trace by
 trace. The steps of any number of workers interleave.
 */
module TraceRace {
  import opened Basics
  import opened TraceStore

  /** Where a worker stands with the first trace of its todo list: not begun, mark read, stored. */
  datatype Stage = Fresh | Looked(unsent: bool) | Done

  /** What a worker is at: merging what it did not know, or storing the list as it read it. */
  datatype Phase = Idle | Merging(todo: seq<Item>, stage: Stage) | Storing(todo: seq<Item>, stage: Stage)

  datatype Shared = Shared(traces: seq<Item>, log: seq<Item>, workers: map<nat, Phase>)

  datatype Move = ReadKnown(w: nat, news: seq<Item>) | ReadList(w: nat) | Look(w: nat) | Store(w: nat) | Append(w: nat)

  function PhaseOf(s: Shared, w: nat): Phase {
    if w in s.workers then s.workers[w] else Idle
  }

  /** A worker with nothing left to do is idle. */
  function Rest(p: Phase): Phase {
    if !p.Idle? && p.todo == [] then Idle else p
  }

  function Begun(s: Shared, w: nat, p: Phase): Shared {
    s.(workers := s.workers[w := Rest(p)])
  }

  function Next(p: Phase): Phase
    requires !p.Idle? && p.todo != []
  {
    Rest(p.(todo := p.todo[1..], stage := Fresh))
  }

  predicate Enabled(s: Shared, e: Move) {
    var p := PhaseOf(s, e.w);
    match e
    case ReadKnown(w, news) => p.Idle?
    case ReadList(w) => p.Idle?
    case Look(w) => !p.Idle? && p.todo != [] && p.stage.Fresh?
    case Store(w) => !p.Idle? && p.todo != [] && p.stage.Looked?
    case Append(w) => p.Merging? && p.todo != [] && p.stage.Done?
  }

  function Moved(s: Shared, e: Move): Shared {
    if !Enabled(s, e) then s
    else
      var p := PhaseOf(s, e.w);
      match e
      case ReadKnown(w, news) => Begun(s, w, Merging(Unknown(SpanIds(s.traces), news), Fresh))
      case ReadList(w) => Begun(s, w, Storing(s.traces, Fresh))
      case Look(w) =>
        s.(workers := s.workers[w := p.(stage := Looked((p.Storing? || p.todo[0].direct) && p.todo[0] !in s.log))])
      case Store(w) =>
        Shared(s.traces, if p.stage.unsent then s.log + [p.todo[0]] else s.log,
              s.workers[w := if p.Merging? then Merging(p.todo, Done) else Next(p)])
      case Append(w) => Shared(s.traces + [p.todo[0]], s.log, s.workers[w := Next(p)])
  }

  /** What Consume leaves when it has made the tasks. */
  function Consumed(start: seq<Item>): Shared {
    Shared(start, ToStore([], start, false), map[])
  }

  function After(s: Shared, es: seq<Move>): Shared {
    if es == [] then s else Moved(After(s, es[..|es| - 1]), es[|es| - 1])
  }

  ghost predicate AllIdle(s: Shared) {
    forall w :: w in s.workers ==> s.workers[w].Idle?
  }

  // ---------------------------------------------------------------- what is stored twice

  /** The worker has seen the trace unsent and will store it. */
  predicate Holds(s: Shared, w: nat, t: Item) {
    var p := PhaseOf(s, w);
    !p.Idle? && p.todo != [] && p.todo[0] == t && p.stage == Looked(true)
  }

  /** Two workers hold one trace: their looks and stores are not kept apart. */
  ghost predicate Contended(s: Shared) {
    exists v, w, t :: v != w && Holds(s, v, t) && Holds(s, w, t)
  }

  /** At no point of the run. */
  ghost predicate NeverContended(s: Shared, es: seq<Move>) {
    !Contended(After(s, es)) && (es == [] || NeverContended(s, es[..|es| - 1]))
  }

  /** A held trace is not stored yet. */
  ghost predicate HeldUnstored(s: Shared) {
    forall w, t :: Holds(s, w, t) ==> t !in s.log
  }

  lemma NoDupAppend(s: seq<Item>, t: Item)
    requires NoDup(s) && t !in s
    ensures NoDup(s + [t])
  {
    assert forall i :: 0 <= i < |s| ==> s[i] in s;
  }

  lemma MovedHolds(s: Shared, e: Move, w: nat, t: Item)
    ensures Holds(Moved(s, e), w, t) <==>
      if e == Look(w) && Enabled(s, e) then
        PhaseOf(s, w).todo[0] == t && (PhaseOf(s, w).Storing? || t.direct) && t !in s.log
      else Holds(s, w, t) && !(e == Store(w) && Enabled(s, e))
  {
  }

  /** While a worker holds a trace, no other worker stores it. */
  lemma HeldByOne(s: Shared, e: Move, w: nat, t: Item)
    requires !Contended(s) && Holds(s, w, t) && e.w != w && t !in s.log
    ensures t !in Moved(s, e).log
  {
    assert !Holds(s, e.w, t);
  }

  /** The look at the mark keeps a trace that is stored from being held. */
  lemma MovedUnstored(s: Shared, e: Move)
    requires NoDup(s.log) && HeldUnstored(s) && !Contended(s)
    ensures NoDup(Moved(s, e).log) && HeldUnstored(Moved(s, e))
  {
    var v := Moved(s, e);
    if e.Store? && Enabled(s, e) && PhaseOf(s, e.w).stage.unsent {
      assert Holds(s, e.w, PhaseOf(s, e.w).todo[0]);
      NoDupAppend(s.log, PhaseOf(s, e.w).todo[0]);
    }
    forall w, t | Holds(v, w, t)
      ensures t !in v.log
    {
      MovedHolds(s, e, w, t);
      if Holds(s, w, t) && e.w != w {
        HeldByOne(s, e, w, t);
      }
    }
  }

  lemma {:induction false} UncontendedOnce(s: Shared, es: seq<Move>)
    requires NoDup(s.log) && HeldUnstored(s) && NeverContended(s, es)
    ensures NoDup(After(s, es).log) && HeldUnstored(After(s, es))
  {
    if es != [] {
      UncontendedOnce(s, es[..|es| - 1]);
      assert NeverContended(s, es[..|es| - 1]);
      MovedUnstored(After(s, es[..|es| - 1]), es[|es| - 1]);
    }
  }

  /** The workers that hold the trace. */
  function Holders(s: Shared, t: Item): set<nat> {
    set w | w in s.workers && Holds(s, w, t)
  }

  /** Copies of the trace in the log, and those that are bound to come. */
  function Copies(s: Shared, t: Item): nat {
    multiset(s.log)[t] + |Holders(s, t)|
  }

  lemma MovedCopies(s: Shared, e: Move, t: Item)
    ensures Copies(Moved(s, e), t) >= Copies(s, t)
  {
    var v := Moved(s, e);
    forall w
      ensures w in Holders(v, t) <==>
        if e == Look(w) && Enabled(s, e) then
          PhaseOf(s, w).todo[0] == t && (PhaseOf(s, w).Storing? || t.direct) && t !in s.log
        else w in Holders(s, t) && !(e == Store(w) && Enabled(s, e))
    {
      MovedHolds(s, e, w, t);
    }
    if e.Store? && Enabled(s, e) && Holds(s, e.w, t) {
      assert Holders(v, t) == Holders(s, t) - {e.w};
      assert v.log == s.log + [t];
    } else {
      assert multiset(v.log)[t] >= multiset(s.log)[t];
      MoreHolders(Holders(s, t), Holders(v, t));
    }
  }

  lemma MoreHolders(a: set<nat>, b: set<nat>)
    requires a <= b
    ensures |a| <= |b|
  {
    assert b == a + (b - a);
  }

  lemma {:induction false} TwoBound(s: Shared, es: seq<Move>) returns (t: Item)
    requires !NeverContended(s, es)
    ensures Copies(After(s, es), t) >= 2
  {
    if Contended(After(s, es)) {
      t := TwoHold(After(s, es));
    } else {
      t := TwoBound(s, es[..|es| - 1]);
      MovedCopies(After(s, es[..|es| - 1]), es[|es| - 1], t);
    }
  }

  lemma TwoHold(s: Shared) returns (t: Item)
    requires Contended(s)
    ensures Copies(s, t) >= 2
  {
    var v, w, u :| v != w && Holds(s, v, u) && Holds(s, w, u);
    t := u;
    MoreHolders({v, w}, Holders(s, u));
  }

  lemma TwoCopies(log: seq<Item>, t: Item)
    requires NoDup(log)
    ensures multiset(log)[t] <= 1
  {
    if t in log {
      var i :| 0 <= i < |log| && log[i] == t;
      assert log == log[..i] + [t] + log[i + 1..];
      assert t !in log[..i] && t !in log[i + 1..];
    }
  }

  lemma IdleCopies(s: Shared, t: Item)
    requires AllIdle(s)
    ensures Copies(s, t) == multiset(s.log)[t]
  {
    assert Holders(s, t) == {};
  }

  /**
   Over every run of any number of workers to its end: no trace is stored twice
   if and only if looking at a trace's mark and storing it were mutually
   exclusive, so that no two workers ever held one trace.
   */
  lemma TraceStoredOnceIff(start: seq<Item>, es: seq<Move>)
    requires AllIdle(After(Consumed(start), es))
    ensures NoDup(After(Consumed(start), es).log) <==> NeverContended(Consumed(start), es)
  {
    var s := Consumed(start);
    ToStoreNoDup([], start, false);
    assert [] + s.log == s.log;
    if NeverContended(s, es) {
      UncontendedOnce(s, es);
    } else {
      var t := TwoBound(s, es);
      IdleCopies(After(s, es), t);
      if NoDup(After(s, es).log) {
        TwoCopies(After(s, es).log, t);
      }
    }
  }

  // ---------------------------------------------------------------- what the list holds twice

  /** The traces of the list and those that merges are about to append. */
  ghost predicate InPool(s: Shared, t: Item) {
    t in s.traces || exists w :: Pends(s, w, t)
  }

  predicate Pends(s: Shared, w: nat, t: Item) {
    PhaseOf(s, w).Merging? && t in PhaseOf(s, w).todo
  }

  ghost predicate PoolApart(s: Shared) {
    forall t, u :: InPool(s, t) && InPool(s, u) && t.spanId == u.spanId ==> t == u
  }

  /**
   A merge reads the known spans although its answer holds an unknown span in two
   traces, or while another merge still has another trace of such a span to
   append.
   */
  ghost predicate Overlaps(s: Shared, e: Move) {
    e.ReadKnown? && Enabled(s, e) &&
    var unknown := Unknown(SpanIds(s.traces), e.news);
    || !SpansApart(unknown)
    || exists w, t, u :: t in unknown && Pends(s, w, u) && u != t && u.spanId == t.spanId
  }

  /** What a step brings into the pool; nothing leaves it. */
  ghost predicate Brings(s: Shared, e: Move, t: Item) {
    e.ReadKnown? && Enabled(s, e) && t in Unknown(SpanIds(s.traces), e.news)
  }

  lemma MovedPends(s: Shared, e: Move, w: nat, t: Item)
    ensures Pends(Moved(s, e), w, t) <==>
      if e.w != w || !Enabled(s, e) || e.Look? || e.Store? then
        Pends(s, w, t) && !(e == Store(w) && Enabled(s, e) && PhaseOf(s, w).Storing?)
      else if e.ReadKnown? then Brings(s, e, t)
      else if e.Append? then t in PhaseOf(s, w).todo[1..]
      else false
  {
  }

  lemma MovedPool(s: Shared, e: Move, t: Item)
    ensures InPool(Moved(s, e), t) <==> InPool(s, t) || Brings(s, e, t)
  {
    var v := Moved(s, e);
    if InPool(v, t) && t !in v.traces {
      var w :| Pends(v, w, t);
      MovedPends(s, e, w, t);
      assert Pends(s, w, t) || Brings(s, e, t);
    }
    if t in v.traces && t !in s.traces {
      assert Pends(s, e.w, t);
    }
    if w :| Pends(s, w, t) {
      MovedPends(s, e, w, t);
      StillInPool(s, e, w, t);
    }
    if Brings(s, e, t) {
      MovedPends(s, e, e.w, t);
      assert Pends(v, e.w, t);
    }
  }

  lemma StillInPool(s: Shared, e: Move, w: nat, t: Item)
    requires Pends(s, w, t)
    ensures Pends(Moved(s, e), w, t) || t in Moved(s, e).traces
  {
    MovedPends(s, e, w, t);
    if e == Append(w) && Enabled(s, e) {
      var todo := PhaseOf(s, w).todo;
      assert todo == [todo[0]] + todo[1..];
    }
  }

  lemma MovedApart(s: Shared, e: Move)
    ensures PoolApart(Moved(s, e)) <==> PoolApart(s) && !Overlaps(s, e)
  {
    forall t
      ensures InPool(Moved(s, e), t) <==> InPool(s, t) || Brings(s, e, t)
    {
      MovedPool(s, e, t);
    }
    if e.ReadKnown? && Enabled(s, e) {
      var unknown := Unknown(SpanIds(s.traces), e.news);
      UnknownHas(SpanIds(s.traces), e.news);
      assert forall t :: t in s.traces ==> t.spanId in SpanIds(s.traces);
      if Overlaps(s, e) {
        ShowOverlap(s, e);
      }
    }
  }

  lemma ShowOverlap(s: Shared, e: Move)
    requires Overlaps(s, e)
    ensures !PoolApart(Moved(s, e))
  {
    var unknown := Unknown(SpanIds(s.traces), e.news);
    if !SpansApart(unknown) {
      var t, u :| t in unknown && u in unknown && t.spanId == u.spanId && t != u;
      MovedPool(s, e, t);
      MovedPool(s, e, u);
    } else {
      var w, t, u :| t in unknown && Pends(s, w, u) && u != t && u.spanId == t.spanId;
      MovedPool(s, e, t);
      MovedPool(s, e, u);
    }
  }

  ghost predicate NeverOverlaps(s: Shared, es: seq<Move>) {
    es == [] || (NeverOverlaps(s, es[..|es| - 1]) && !Overlaps(After(s, es[..|es| - 1]), es[|es| - 1]))
  }

  lemma {:induction false} PoolApartIff(s: Shared, es: seq<Move>)
    ensures PoolApart(After(s, es)) <==> PoolApart(s) && NeverOverlaps(s, es)
  {
    if es != [] {
      PoolApartIff(s, es[..|es| - 1]);
      MovedApart(After(s, es[..|es| - 1]), es[|es| - 1]);
    }
  }

  lemma IdlePool(s: Shared)
    requires AllIdle(s)
    ensures PoolApart(s) <==> SpansApart(s.traces)
  {
    assert forall t :: InPool(s, t) <==> t in s.traces;
  }

  /**
   When the workers are done, the list holds no span in two traces if and only if
   it did not at the start and no merge, when it read the known spans, overlapped
   with itself or with another one.
   */
  lemma ListApartIff(start: seq<Item>, es: seq<Move>)
    requires AllIdle(After(Consumed(start), es))
    ensures SpansApart(After(Consumed(start), es).traces) <==>
      SpansApart(start) && NeverOverlaps(Consumed(start), es)
  {
    PoolApartIff(Consumed(start), es);
    IdlePool(Consumed(start));
    IdlePool(After(Consumed(start), es));
  }

  // ---------------------------------------------------------------- what the database holds twice

  /** A stored trace is in the list, or is just to be appended. */
  ghost predicate LogListed(s: Shared) {
    forall t :: t in s.log ==> t in s.traces || Appending(s, t)
  }

  ghost predicate Appending(s: Shared, t: Item) {
    exists w :: w in s.workers && s.workers[w].Merging? && s.workers[w].stage.Done? && s.workers[w].todo != [] &&
      s.workers[w].todo[0] == t
  }

  /** A worker reads its list off the shared one. */
  ghost predicate Reading(s: Shared) {
    forall w :: w in s.workers && s.workers[w].Storing? ==> forall t :: t in s.workers[w].todo ==> t in s.traces
  }

  lemma MovedListed(s: Shared, e: Move)
    requires LogListed(s) && Reading(s)
    ensures LogListed(Moved(s, e)) && Reading(Moved(s, e))
  {
    if Enabled(s, e) {
      var v := Moved(s, e);
      forall t | t in v.log
        ensures t in v.traces || Appending(v, t)
      {
        if t in s.log && t !in s.traces {
          var w :| w in s.workers && s.workers[w].Merging? && s.workers[w].stage.Done? && s.workers[w].todo != [] &&
            s.workers[w].todo[0] == t;
          assert w != e.w ==> w in v.workers && v.workers[w].Merging? && v.workers[w].todo == s.workers[w].todo;
        } else if t !in s.log {
          assert e.w in v.workers;
        }
      }
    }
  }

  lemma {:induction false} AlwaysListed(s: Shared, es: seq<Move>)
    requires LogListed(s) && Reading(s)
    ensures LogListed(After(s, es)) && Reading(After(s, es))
  {
    if es != [] {
      AlwaysListed(s, es[..|es| - 1]);
      MovedListed(After(s, es[..|es| - 1]), es[|es| - 1]);
    }
  }

  /** No span is in the database twice, whether by one trace or by two. */
  ghost predicate OnceEach(log: seq<Item>) {
    forall i, j :: 0 <= i < j < |log| ==> log[i].spanId != log[j].spanId
  }

  lemma OnceIsBoth(log: seq<Item>)
    ensures OnceEach(log) <==> NoDup(log) && SpansApart(log)
  {
    if OnceEach(log) {
      forall t, u | t in log && u in log && t.spanId == u.spanId
        ensures t == u
      {
        var i :| 0 <= i < |log| && log[i] == t;
        var j :| 0 <= j < |log| && log[j] == u;
        assert i == j;
      }
    }
  }

  /**
   When the workers are done and have stored the whole list: no span was stored
   twice if and only if the first traces held none twice, no merge overlapped
   itself or another one when it read the known spans, and no two workers ever
   held one trace between look and store.
   */
  lemma StoredOnceIff(start: seq<Item>, es: seq<Move>)
    requires AllIdle(After(Consumed(start), es))
    requires forall t :: t in After(Consumed(start), es).traces ==> t in After(Consumed(start), es).log
    ensures OnceEach(After(Consumed(start), es).log) <==>
      SpansApart(start) && NeverOverlaps(Consumed(start), es) && NeverContended(Consumed(start), es)
  {
    var s := Consumed(start);
    ToStoreHas([], start, false);
    ListApartIff(start, es);
    TraceStoredOnceIff(start, es);
    AlwaysListed(s, es);
    OnceIsBoth(After(s, es).log);
    ApartSame(After(s, es).log, After(s, es).traces);
  }

  // ---------------------------------------------------------------- failing runs

  lemma AfterFour(s: Shared, a: Move, b: Move, c: Move, d: Move)
    ensures After(s, [a, b, c, d]) == Moved(Moved(Moved(Moved(s, a), b), c), d)
  {
    AfterTwo(s, [], a, b);
    AfterTwo(s, [a, b], c, d);
    assert [] + [a, b] == [a, b] && [a, b] + [c, d] == [a, b, c, d];
  }

  lemma {:induction false} AfterConcat(s: Shared, a: seq<Move>, b: seq<Move>)
    ensures After(s, a + b) == After(After(s, a), b)
  {
    if b == [] {
      assert a + b == a;
    } else {
      assert (a + b)[..|a + b| - 1] == a + b[..|b| - 1];
      AfterConcat(s, a, b[..|b| - 1]);
    }
  }

  /** Worker 0 has stored its trace, worker 1 has only read the known spans. */
  function HalfRaced(t: Item, u: Item): Shared {
    Shared([], [t], map[0 := Merging([t], Done), 1 := Merging([u], Fresh)])
  }

  lemma FirstHalf(t: Item, u: Item)
    requires t.direct
    ensures After(Consumed([]), [ReadKnown(0, [t]), ReadKnown(1, [u]), Look(0), Store(0)]) == HalfRaced(t, u)
  {
    var s := Consumed([]);
    AfterFour(s, ReadKnown(0, [t]), ReadKnown(1, [u]), Look(0), Store(0));
    assert SpanIds([]) == {} && ToStore([], [], false) == [];
    assert Unknown({}, [t]) == [t] && Unknown({}, [u]) == [u] by {
      assert [t][..0] == [] && [u][..0] == [];
    }
    var s2 := Moved(Moved(s, ReadKnown(0, [t])), ReadKnown(1, [u]));
    assert s2 == Shared([], [], map[0 := Merging([t], Fresh), 1 := Merging([u], Fresh)]);
  }

  lemma SecondHalf(t: Item, u: Item)
    requires t != u && u.direct
    ensures var s := After(HalfRaced(t, u), [Append(0), Look(1), Store(1), Append(1)]);
      s.traces == s.log == [t, u]
  {
    AfterFour(HalfRaced(t, u), Append(0), Look(1), Store(1), Append(1));
    var s5 := Moved(HalfRaced(t, u), Append(0));
    assert Next(Merging([t], Done)) == Idle;
    assert s5 == Shared([t], [t], map[0 := Idle, 1 := Merging([u], Fresh)]);
    var s7 := Moved(Moved(s5, Look(1)), Store(1));
    assert s7 == Shared([t], [t, u], map[0 := Idle, 1 := Merging([u], Done)]);
  }

  /**
   Two workers merge answers that each hold the span once, and the database gets
   it twice.
   */
  lemma RacingMerges(t: Item, u: Item)
    requires t != u && t.spanId == u.spanId && t.direct && u.direct
    ensures var s := After(Consumed([]), [ReadKnown(0, [t]), ReadKnown(1, [u]), Look(0), Store(0)] +
                                         [Append(0), Look(1), Store(1), Append(1)]);
      s.traces == s.log == [t, u] && SpansApart([t]) && SpansApart([u]) && !SpansApart(s.log)
  {
    FirstHalf(t, u);
    SecondHalf(t, u);
    AfterConcat(Consumed([]), [ReadKnown(0, [t]), ReadKnown(1, [u]), Look(0), Store(0)],
                [Append(0), Look(1), Store(1), Append(1)]);
    assert t in [t, u] && u in [t, u];
  }

  /** Both workers have seen the trace unsent. */
  function BothLooked(t: Item): Shared {
    Shared([t], [], map[0 := Storing([t], Looked(true)), 1 := Storing([t], Looked(true))])
  }

  lemma LookTwice(t: Item)
    requires !t.direct
    ensures After(Consumed([t]), [ReadList(0), ReadList(1), Look(0), Look(1)]) == BothLooked(t)
  {
    AfterFour(Consumed([t]), ReadList(0), ReadList(1), Look(0), Look(1));
    assert ToStore([], [t], false) == [] by {
      assert [t][..0] == [];
    }
    var s2 := Moved(Moved(Consumed([t]), ReadList(0)), ReadList(1));
    assert s2 == Shared([t], [], map[0 := Storing([t], Fresh), 1 := Storing([t], Fresh)]);
  }

  lemma StoreTwice(t: Item)
    ensures After(BothLooked(t), [] + [Store(0), Store(1)]).log == [t, t]
  {
    AfterTwo(BothLooked(t), [], Store(0), Store(1));
    assert Moved(BothLooked(t), Store(0)) == Shared([t], [t], map[0 := Idle, 1 := Storing([t], Looked(true))]);
  }

  /** Two workers store one trace, each having seen it unsent. */
  lemma RacingStores(t: Item)
    requires !t.direct
    ensures After(Consumed([t]), [ReadList(0), ReadList(1), Look(0), Look(1)] + [Store(0), Store(1)]).log == [t, t]
  {
    LookTwice(t);
    StoreTwice(t);
    assert [] + [Store(0), Store(1)] == [Store(0), Store(1)];
    AfterConcat(Consumed([t]), [ReadList(0), ReadList(1), Look(0), Look(1)], [Store(0), Store(1)]);
  }

  // ---------------------------------------------------------------- one worker alone

  function MergeSteps(w: nat, n: nat): seq<Move> {
    if n == 0 then [] else MergeSteps(w, n - 1) + [Look(w), Store(w), Append(w)]
  }

  function StoreSteps(w: nat, n: nat): seq<Move> {
    if n == 0 then [] else StoreSteps(w, n - 1) + [Look(w), Store(w)]
  }

  /** Worker w is through with the first n traces of todo, with nothing in between. */
  ghost predicate HalfMerged(s: Shared, v: Shared, w: nat, todo: seq<Item>, n: nat)
    requires n <= |todo|
  {
    && v.traces == s.traces + todo[..n] && Stored(s.log, todo[..n], false, v.log)
    && w in v.workers && if n == |todo| then v.workers[w].Idle? else
         v.workers[w].Merging? && v.workers[w].todo == todo[n..] && v.workers[w].stage.Fresh?
  }

  ghost predicate HalfStored(s: Shared, v: Shared, w: nat, todo: seq<Item>, n: nat)
    requires n <= |todo|
  {
    && v.traces == s.traces && Stored(s.log, todo[..n], true, v.log)
    && w in v.workers && v.workers[w] == Rest(Storing(todo[n..], Fresh))
  }

  lemma HalfMergedStep(s: Shared, v: Shared, w: nat, todo: seq<Item>, n: nat)
    requires n < |todo| && HalfMerged(s, v, w, todo, n)
    ensures HalfMerged(s, Moved(Moved(Moved(v, Look(w)), Store(w)), Append(w)), w, todo, n + 1)
  {
    var t := todo[n];
    assert todo[n..][0] == t && todo[n..][1..] == todo[n + 1..] && todo[..n + 1] == todo[..n] + [t];
    StoredStep(s.log, todo[..n], false, v.log, t);
    assert n + 1 == |todo| ==> todo[n + 1..] == [];
  }

  lemma HalfStoredStep(s: Shared, v: Shared, w: nat, todo: seq<Item>, n: nat)
    requires n < |todo| && HalfStored(s, v, w, todo, n)
    ensures HalfStored(s, Moved(Moved(v, Look(w)), Store(w)), w, todo, n + 1)
  {
    var t := todo[n];
    assert todo[n..][0] == t && todo[n..][1..] == todo[n + 1..] && todo[..n + 1] == todo[..n] + [t];
    StoredStep(s.log, todo[..n], true, v.log, t);
  }

  lemma AfterTwo(s: Shared, es: seq<Move>, a: Move, b: Move)
    ensures After(s, es + [a, b]) == Moved(Moved(After(s, es), a), b)
  {
    var all := es + [a, b];
    assert all[..|es| + 1] == es + [a] && (es + [a])[..|es|] == es;
  }

  lemma AfterThree(s: Shared, es: seq<Move>, a: Move, b: Move, c: Move)
    ensures After(s, es + [a, b, c]) == Moved(Moved(Moved(After(s, es), a), b), c)
  {
    var all := es + [a, b, c];
    assert all[..|es| + 2] == es + [a, b];
    AfterTwo(s, es, a, b);
  }

  lemma {:induction false} MergesAlone(s: Shared, v: Shared, w: nat, todo: seq<Item>, n: nat)
    requires n <= |todo| && HalfMerged(s, v, w, todo, 0)
    ensures HalfMerged(s, After(v, MergeSteps(w, n)), w, todo, n)
  {
    if n > 0 {
      MergesAlone(s, v, w, todo, n - 1);
      HalfMergedStep(s, After(v, MergeSteps(w, n - 1)), w, todo, n - 1);
      AfterThree(v, MergeSteps(w, n - 1), Look(w), Store(w), Append(w));
    }
  }

  lemma {:induction false} StoresAlone(s: Shared, v: Shared, w: nat, todo: seq<Item>, n: nat)
    requires n <= |todo| && HalfStored(s, v, w, todo, 0)
    ensures HalfStored(s, After(v, StoreSteps(w, n)), w, todo, n)
  {
    if n > 0 {
      StoresAlone(s, v, w, todo, n - 1);
      HalfStoredStep(s, After(v, StoreSteps(w, n - 1)), w, todo, n - 1);
      AfterTwo(v, StoreSteps(w, n - 1), Look(w), Store(w));
    }
  }

  /** With nothing in between, a merge and a storing are the single steps of TraceStore. */
  lemma AloneIsOneStep(s: Shared, w: nat, news: seq<Item>)
    requires PhaseOf(s, w).Idle?
    ensures var one := Step(State(s.traces, s.log), TraceStore.Merge(news));
      var v := After(Moved(s, ReadKnown(w, news)), MergeSteps(w, |Unknown(SpanIds(s.traces), news)|));
      v.traces == one.traces && v.log == one.log && PhaseOf(v, w).Idle?
    ensures var one := Step(State(s.traces, s.log), TraceStore.StoreAll);
      var v := After(Moved(s, ReadList(w)), StoreSteps(w, |s.traces|));
      v.traces == one.traces && v.log == one.log && PhaseOf(v, w).Idle?
  {
    var unknown := Unknown(SpanIds(s.traces), news);
    var merging, storing := Moved(s, ReadKnown(w, news)), Moved(s, ReadList(w));
    assert s.traces + [] == s.traces && s.log + [] == s.log;
    assert unknown[0..] == unknown && unknown[..|unknown|] == unknown && unknown[|unknown|..] == [];
    assert s.traces[0..] == s.traces && s.traces[..|s.traces|] == s.traces && s.traces[|s.traces|..] == [];
    MergesAlone(s, merging, w, unknown, |unknown|);
    StoresAlone(s, storing, w, s.traces, |s.traces|);
  }
}
