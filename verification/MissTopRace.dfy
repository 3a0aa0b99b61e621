/**
 The handlers of one receiver and the pass of checkTask that meet at one trace
 (pkg/analyzer/analyzer.go over the local register). Nothing locks the miss entry
 and the register together: a non-top span first replaces the entry, then looks
 at the register, then records its time; the pass first loads the entry, then
 compares its time with the register, then deletes whatever entry is there. All
 these steps interleave. A span is named by its nano time.
 */
module MissTopRace {
  import opened Basics
  import MissTop

  datatype Event = Enter(nano: int) | Look(nano: int) | Record(nano: int) | Top | Expire | Load | Compare | Delete

  /**
   register: 0 when there is none, -1 when a top span is marked; entry: the time
   in the miss entry; entered and looked: the spans between two of their steps;
   held and compared: the entry that the pass has loaded, and how far it is;
   reports: how often the trace was reported as one without a top.
   */
  datatype State = State(
    register: int,
    entry: Option<int>,
    entered: set<int>,
    looked: set<int>,
    held: Option<int>,
    compared: bool,
    reports: nat)

  const NOTHING := State(0, None, {}, {}, None, false, 0)

  function Step(s: State, e: Event): State {
    match e
    case Enter(nano) => s.(entry := Some(nano), entered := s.entered + {nano})
    case Look(nano) =>
      if nano !in s.entered then s
      else s.(entered := s.entered - {nano}, looked := if s.register >= 0 then s.looked + {nano} else s.looked)
    case Record(nano) => if nano !in s.looked then s else s.(register := nano, looked := s.looked - {nano})
    case Top => s.(register := -1)
    case Expire => s.(register := 0)
    case Load => if s.held.Some? || s.entry.None? then s else s.(held := s.entry, compared := false)
    case Compare =>
      if s.held.None? || s.compared then s
      else s.(compared := true, reports := s.reports + (if s.register == s.held.value then 1 else 0))
    case Delete => if s.held.None? || !s.compared then s else s.(entry := None, held := None)
  }

  function Run(s: State, es: seq<Event>): State {
    if es == [] then s else Step(Run(s, es[..|es| - 1]), es[|es| - 1])
  }

  ghost predicate NanosPositive(es: seq<Event>) {
    forall i :: 0 <= i < |es| && es[i].Enter? ==> es[i].nano > 0
  }

  lemma {:induction false} RunConcat(s: State, a: seq<Event>, b: seq<Event>)
    ensures Run(s, a + b) == Run(Run(s, a), b)
  {
    if b == [] {
      assert a + b == a;
    } else {
      assert (a + b)[..|a + b| - 1] == a + b[..|b| - 1];
      RunConcat(s, a, b[..|b| - 1]);
    }
  }

  lemma RunThree(s: State, a: Event, b: Event, c: Event)
    ensures Run(s, [a, b, c]) == Step(Step(Step(s, a), b), c)
  {
    var es := [a, b, c];
    assert es[..2][..1] == es[..1] && es[..1][..0] == [];
    assert Run(s, es[..1]) == Step(s, a);
    assert Run(s, es[..2]) == Step(Step(s, a), b);
  }

  lemma {:induction false} AllPositive(es: seq<Event>)
    requires NanosPositive(es)
    ensures var s := Run(NOTHING, es);
      && s.register >= -1 && (s.entry.Some? ==> s.entry.value > 0) && (s.held.Some? ==> s.held.value > 0)
      && forall nano :: nano in s.entered || nano in s.looked ==> nano > 0
  {
    if es != [] {
      AllPositive(es[..|es| - 1]);
    }
  }

  // ---------------------------------------------------------------- one handler or one pass alone

  /** What MissTop knows of one trace. */
  function ViewOf(s: MissTop.State, id: string): State {
    NOTHING.(register := MissTop.TraceTime(s.register, id),
             entry := if id in s.miss then Some(s.miss[id].checkNanoTime) else None)
  }

  /** With nothing in between, the steps of a span are the one step of MissTop. */
  lemma AloneIsOneStep(cfg: MissTop.Config, s: MissTop.State, labels: MissTop.Labels, now: int, nano: int)
    requires cfg.missTopTime > 0 && !labels.topSpan
    ensures ViewOf(MissTop.Traced(cfg, s, labels, now, nano), labels.traceId) ==
      Run(ViewOf(s, labels.traceId), [Enter(nano), Look(nano), Record(nano)])
  {
    RunThree(ViewOf(s, labels.traceId), Enter(nano), Look(nano), Record(nano));
  }

  /** And those of a pass are the firing of MissTop: removed, and reported exactly if elected. */
  lemma PassAlone(cfg: MissTop.Config, s: MissTop.State, checkTime: int, id: string)
    requires id in MissTop.Fired(s, checkTime)
    ensures var v := Run(ViewOf(s, id), [Load, Compare, Delete]);
      && v.entry == ViewOf(MissTop.Checked(cfg, s, checkTime), id).entry == None && v.held.None?
      && (v.reports == 1 <==> id in MissTop.Elected(s, checkTime)) && v.reports <= 1
  {
    RunThree(ViewOf(s, id), Load, Compare, Delete);
  }

  // ---------------------------------------------------------------- the mark of a top span

  /** Neither marks nor forgets. */
  ghost predicate Unmarked(es: seq<Event>) {
    forall i :: 0 <= i < |es| ==> !es[i].Top? && !es[i].Expire?
  }

  /** Some span that had looked when s was reached records its time during es. */
  ghost predicate LateRecord(s: State, es: seq<Event>) {
    exists i :: 0 <= i < |es| && es[i].Record? && es[i].nano in s.looked
  }

  lemma {:induction false} MarkStands(s: State, es: seq<Event>)
    requires s.register == -1 && Unmarked(es) && (forall nano :: nano in s.entered || nano in s.looked ==> nano > 0)
    requires NanosPositive(es)
    ensures var t := Run(s, es);
      && (t.register == -1 <==> !LateRecord(s, es))
      && (t.register == -1 ==> t.looked == s.looked)
      && (t.register != -1 ==> t.register > 0)
      && forall nano :: nano in t.entered || nano in t.looked ==> nano > 0
  {
    if es != [] {
      var n := |es| - 1;
      MarkStands(s, es[..n]);
      assert es == es[..n] + [es[n]];
      assert LateRecord(s, es) <==> LateRecord(s, es[..n]) || (es[n].Record? && es[n].nano in s.looked) by {
        if LateRecord(s, es[..n]) {
          var i :| 0 <= i < n && es[..n][i].Record? && es[..n][i].nano in s.looked;
          assert es[i].Record?;
        }
      }
    }
  }

  /**
   The mark that a top span sets stands until it expires if and only if no span
   that looked at the register before the mark records its time after it. While
   it stands no pass reports the trace.
   */
  lemma MarkStandsIff(before: seq<Event>, es: seq<Event>)
    requires NanosPositive(before) && NanosPositive(es) && Unmarked(es)
    ensures var marked, now := Run(NOTHING, before + [Top]), Run(NOTHING, before + [Top] + es);
      && (now.register == -1 <==> !LateRecord(marked, es))
      && (now.register == -1 ==> Step(now, Compare).reports == now.reports)
  {
    var marked := Run(NOTHING, before + [Top]);
    assert (before + [Top])[..|before|] == before;
    AllPositive(before);
    MarkStands(marked, es);
    RunConcat(NOTHING, before + [Top], es);
    assert NanosPositive(before + [Top] + es);
    AllPositive(before + [Top] + es);
  }

  /**
   The smallest loss: the mark comes between the look and the record of a span, and
   the trace is reported all the same.
   */
  lemma MarkOverwritten(nano: int)
    requires nano > 0
    ensures Run(NOTHING, [Enter(nano), Look(nano), Top] + [Record(nano), Load, Compare]).reports == 1
  {
    RunThree(NOTHING, Enter(nano), Look(nano), Top);
    RunConcat(NOTHING, [Enter(nano), Look(nano), Top], [Record(nano), Load, Compare]);
    RunThree(Run(NOTHING, [Enter(nano), Look(nano), Top]), Record(nano), Load, Compare);
  }

  // ---------------------------------------------------------------- a trace without a top

  /** The last span that entered, and the last that recorded; 0 when there is none. */
  function LastEntered(es: seq<Event>): int {
    if es == [] then 0
    else if es[|es| - 1].Enter? then es[|es| - 1].nano else LastEntered(es[..|es| - 1])
  }

  function LastRecorded(es: seq<Event>): int {
    if es == [] then 0
    else if es[|es| - 1].Record? && es[|es| - 1].nano in Run(NOTHING, es[..|es| - 1]).looked then es[|es| - 1].nano
    else LastRecorded(es[..|es| - 1])
  }

  /** The last span to enter before the pass loaded its entry. */
  function LastLoaded(es: seq<Event>): int {
    if es == [] then 0
    else
      var n := |es| - 1;
      if es[n].Load? && Run(NOTHING, es[..n]).held.None? then LastEntered(es[..n]) else LastLoaded(es[..n])
  }

  lemma {:induction false} RegisterIsLast(es: seq<Event>)
    requires NanosPositive(es) && Unmarked(es)
    ensures var s := Run(NOTHING, es);
      && s.register == LastRecorded(es) >= 0
      && (s.entry.Some? ==> s.entry.value == LastEntered(es) > 0)
      && (s.held.Some? ==> s.held.value == LastLoaded(es) > 0)
      && forall nano :: nano in s.entered || nano in s.looked ==> nano > 0
  {
    if es != [] {
      RegisterIsLast(es[..|es| - 1]);
    }
  }

  /**
   Without a top and without an expiry, a pass reports the trace exactly if the
   last span to enter before it loaded the entry is the last to record before it
   compares.
   */
  lemma RootlessWinsIff(es: seq<Event>)
    requires NanosPositive(es) && Unmarked(es)
    requires Run(NOTHING, es).held.Some? && !Run(NOTHING, es).compared
    ensures var s := Run(NOTHING, es);
      Step(s, Compare).reports == s.reports + if LastLoaded(es) == LastRecorded(es) then 1 else 0
  {
    RegisterIsLast(es);
  }

  /** A deletion since the last span entered. */
  function Deleted(es: seq<Event>): bool {
    if es == [] then false
    else
      var n := |es| - 1;
      if es[n].Enter? then false
      else Deleted(es[..n]) || (es[n].Delete? && Run(NOTHING, es[..n]).held.Some? && Run(NOTHING, es[..n]).compared)
  }

  /** The entry is that of the last span, and it is there exactly until a pass deletes. */
  lemma {:induction false} EntryStandsIff(es: seq<Event>)
    requires NanosPositive(es)
    ensures var s := Run(NOTHING, es);
      && (s.entry.Some? <==> LastEntered(es) > 0 && !Deleted(es))
      && (s.entry.Some? ==> s.entry.value == LastEntered(es))
      && LastEntered(es) >= 0
  {
    if es != [] {
      EntryStandsIff(es[..|es| - 1]);
    }
  }

  /**
   A pass deletes an entry that it never compared exactly if another span has
   entered since it loaded.
   */
  lemma DropsUncomparedIff(es: seq<Event>)
    requires NanosPositive(es)
    requires Run(NOTHING, es).held.Some? && Run(NOTHING, es).compared
    ensures var s := Run(NOTHING, es);
      && Step(s, Delete).entry == None
      && (s.entry.Some? && s.entry != s.held <==> !Deleted(es) && LastEntered(es) != LastLoaded(es))
  {
    EntryStandsIff(es);
    HeldIsLoaded(es);
  }

  lemma {:induction false} HeldIsLoaded(es: seq<Event>)
    requires NanosPositive(es)
    ensures var s := Run(NOTHING, es);
      s.held.Some? ==> s.held.value == LastLoaded(es) && LastEntered(es) > 0
  {
    EntryStandsIff(es);
    if es != [] {
      EntryStandsIff(es[..|es| - 1]);
      HeldIsLoaded(es[..|es| - 1]);
    }
  }

  /** A span that enters while the pass is under way: its entry goes with the old one, and nobody reports the trace. */
  lemma ReplacedIsLost(first: int, second: int)
    requires 0 < first < second
    ensures var s := Run(NOTHING, [Enter(first), Look(first), Record(first)] + [Load, Enter(second), Look(second)] +
                                  [Record(second), Compare, Delete]);
      s == NOTHING.(register := second, compared := true)
  {
    var a, b := [Enter(first), Look(first), Record(first)], [Load, Enter(second), Look(second)];
    var c := [Record(second), Compare, Delete];
    RunConcat(NOTHING, a + b, c);
    RunConcat(NOTHING, a, b);
    RunThree(NOTHING, Enter(first), Look(first), Record(first));
    var s1 := State(first, Some(first), {}, {}, None, false, 0);
    assert Run(NOTHING, a) == s1;
    RunThree(s1, Load, Enter(second), Look(second));
    var s2 := State(first, Some(second), {}, {second}, Some(first), false, 0);
    assert Run(s1, b) == s2;
    RunThree(s2, Record(second), Compare, Delete);
  }

  /** Two handlers that overtake each other: nobody reports the trace, although it has no top. */
  lemma OvertakenIsLost(first: int, second: int)
    requires 0 < first < second
    ensures var s := Run(NOTHING, [Enter(first), Enter(second), Look(second)] +
                                  [Record(second), Look(first), Record(first)] +
                                  [Load, Compare, Delete]);
      s == NOTHING.(register := first, compared := true)
  {
    var a, b := [Enter(first), Enter(second), Look(second)], [Record(second), Look(first), Record(first)];
    var c := [Load, Compare, Delete];
    RunConcat(NOTHING, a + b, c);
    RunConcat(NOTHING, a, b);
    RunThree(NOTHING, Enter(first), Enter(second), Look(second));
    var s1 := State(0, Some(second), {first}, {second}, None, false, 0);
    assert Run(NOTHING, a) == s1;
    RunThree(s1, Record(second), Look(first), Record(first));
    var s2 := State(first, Some(second), {}, {}, None, false, 0);
    assert Run(s1, b) == s2;
    RunThree(s2, Load, Compare, Delete);
  }
}
