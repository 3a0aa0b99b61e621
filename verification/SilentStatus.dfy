/**
 What the rows, the statuses and the answers of the silent switches say in terms
 of the reports of a run (pkg/componment/profile/signal_cache.go).
 */
module SilentStatus {
  import opened Basics
  import opened SilentSwitch

  // ---------------------------------------------------------------- what the rows say

  /** What a collection wrote, with the tuples of the rows. */
  datatype Log = Log(rows: seq<CountMetric>, order: seq<Tuple>, now: int)

  /** The collections of a run wrote these logs. */
  ghost predicate Logged(es: seq<Event>, logs: seq<Log>) {
    if es == [] then logs == []
    else
      var init := es[..|es| - 1];
      if es[|es| - 1].Collect? then
        && logs != []
        && var last := logs[|logs| - 1];
           RowsFor(last.rows, last.order, Run(START, init).cache, last.now) && Logged(init, logs[..|logs| - 1])
      else Logged(init, logs)
  }

  /** A row names its tuple and the time, and holds the counters of the tuple. */
  lemma RowSays(rows: seq<CountMetric>, order: seq<Tuple>, s: Signals, now: int, i: nat)
    requires RowsFor(rows, order, s, now) && i < |rows|
    ensures var row, t := rows[i], order[i];
      && row.entryService == t.entryService && row.entryUrl == t.entryUrl
      && row.mutatedService == t.mutatedService && row.mutatedUrl == t.mutatedUrl
      && row.timestamp == now && t in s && row.total == s[t].total && row.success == s[t].success
  {
  }

  /** What the rows of a tuple say in all: the totals, or the successes. */
  function RowSum(rows: seq<CountMetric>, order: seq<Tuple>, t: Tuple, successes: bool): nat
    requires |rows| == |order|
  {
    if rows == [] then 0
    else
      var n := |rows| - 1;
      RowSum(rows[..n], order[..n], t, successes) +
      (if order[n] != t then 0 else if successes then rows[n].success else rows[n].total)
  }

  function LogSum(logs: seq<Log>, t: Tuple, successes: bool): nat
    requires forall i :: 0 <= i < |logs| ==> |logs[i].rows| == |logs[i].order|
  {
    if logs == [] then 0
    else
      var n := |logs| - 1;
      LogSum(logs[..n], t, successes) + RowSum(logs[n].rows, logs[n].order, t, successes)
  }

  lemma {:induction false} RowSumIs(rows: seq<CountMetric>, order: seq<Tuple>, t: Tuple, successes: bool, count: nat)
    requires |rows| == |order| && NoDup(order)
    requires forall i :: 0 <= i < |rows| && order[i] == t ==>
      count == if successes then rows[i].success else rows[i].total
    ensures RowSum(rows, order, t, successes) == if t in order then count else 0
  {
    if rows != [] {
      var n := |rows| - 1;
      RowSumIs(rows[..n], order[..n], t, successes, count);
      assert order == order[..n] + [order[n]];
      assert order[n] !in order[..n];
    }
  }

  lemma {:induction false} LoggedFits(es: seq<Event>, logs: seq<Log>)
    requires Logged(es, logs)
    ensures forall i :: 0 <= i < |logs| ==> |logs[i].rows| == |logs[i].order|
  {
    if es != [] {
      if es[|es| - 1].Collect? {
        LoggedFits(es[..|es| - 1], logs[..|logs| - 1]);
      } else {
        LoggedFits(es[..|es| - 1], logs);
      }
    }
  }

  lemma CollectedSum(rows: seq<CountMetric>, order: seq<Tuple>, s: Signals, now: int, t: Tuple, successes: bool)
    requires RowsFor(rows, order, s, now) && (t in s ==> s[t].success <= s[t].total)
    ensures RowSum(rows, order, t, successes) == if successes then LiveCounts(s, t).1 else LiveCounts(s, t).0
  {
    RowSumIs(rows, order, t, successes, if successes then LiveCounts(s, t).1 else LiveCounts(s, t).0);
  }

  lemma {:induction false} SuccessBelow(es: seq<Event>, t: Tuple)
    ensures var s := Run(START, es).cache; t in s ==> s[t].success <= s[t].total
  {
    if es != [] {
      SuccessBelow(es[..|es| - 1], t);
    }
  }

  /**
   In the rows themselves: over every run the totals and successes in the rows
   written for a tuple, with its live counters, are its reports and its profiled
   reports.
   */
  lemma {:induction false} RowsConserve(es: seq<Event>, logs: seq<Log>, t: Tuple)
    requires Logged(es, logs)
    ensures forall i :: 0 <= i < |logs| ==> |logs[i].rows| == |logs[i].order|
    ensures LogSum(logs, t, false) + LiveCounts(Run(START, es).cache, t).0 == Adds(es, t, false)
    ensures LogSum(logs, t, true) + LiveCounts(Run(START, es).cache, t).1 == Adds(es, t, true)
  {
    LoggedFits(es, logs);
    if es != [] {
      var init := es[..|es| - 1];
      if es[|es| - 1].Collect? {
        var last := logs[|logs| - 1];
        RowsConserve(init, logs[..|logs| - 1], t);
        SuccessBelow(init, t);
        CollectedSum(last.rows, last.order, Run(START, init).cache, last.now, t, false);
        CollectedSum(last.rows, last.order, Run(START, init).cache, last.now, t, true);
      } else {
        RowsConserve(init, logs, t);
      }
    }
  }

  // ---------------------------------------------------------------- what the status says

  /** Reports of the tuple since the last collection, and those among them that the last query since then saw. */
  function Since(es: seq<Event>, t: Tuple, profiledOnly: bool): nat {
    if es == [] || es[|es| - 1].Collect? then 0
    else
      var e := es[|es| - 1];
      Since(es[..|es| - 1], t, profiledOnly) +
      (if e.Add? && e.tuple == t && (profiledOnly ==> e.profiled) then 1 else 0)
  }

  function Seen(es: seq<Event>, t: Tuple, profiledOnly: bool): nat {
    if es == [] || es[|es| - 1].Collect? then 0
    else if es[|es| - 1].Query? then Since(es[..|es| - 1], t, profiledOnly)
    else Seen(es[..|es| - 1], t, profiledOnly)
  }

  function StatusFor(seen: nat, profiled: nat): Status {
    if seen == 0 then Init else if profiled == 0 then Closing else Finished
  }

  /**
   Over every run: a tuple has its reports since the last collection as counters,
   and its status follows from what the last query saw of them: nothing, none
   profiled, or some profiled.
   */
  lemma {:induction false} StatusIs(es: seq<Event>, t: Tuple)
    ensures var s := Run(START, es).cache;
      && (t in s <==> Since(es, t, false) > 0)
      && (t in s ==> s[t].total == Since(es, t, false) && s[t].success == Since(es, t, true))
      && (t in s ==>
           s[t].status == StatusFor(Seen(es, t, false), Seen(es, t, true)))
    ensures Seen(es, t, true) <= Seen(es, t, false) <= Since(es, t, false)
    ensures Seen(es, t, true) <= Since(es, t, true) <= Since(es, t, false)
  {
    if es != [] {
      StatusIs(es[..|es| - 1], t);
    }
  }

  /**
   What an answer says, in terms of the reports: a pid-url is closed if a tuple
   of it is asked about for the first time and none of its reports was profiled.
   */
  lemma ClosedIff(es: seq<Event>, url: string)
    ensures url in OpenedUrls(Run(START, es).cache) <==>
      exists t :: Since(es, t, false) > 0 && PidUrl(t) == url && Seen(es, t, false) == 0 && Since(es, t, true) == 0
  {
    var s := Run(START, es).cache;
    forall t
      ensures t in s && Opens(s[t]) <==> Since(es, t, false) > 0 && Seen(es, t, false) == 0 && Since(es, t, true) == 0
    {
      StatusIs(es, t);
    }
  }

  /**
   It is recovered if for some tuple of it the first profiled report came since
   the last query, and by now every reported tuple of it has one.
   */
  lemma RecoveredIff(es: seq<Event>, url: string)
    ensures url in RecoverUrls(Run(START, es).cache) <==>
      && (exists t :: PidUrl(t) == url && Seen(es, t, false) > 0 && Seen(es, t, true) == 0 && Since(es, t, true) > 0)
      && (forall t :: PidUrl(t) == url && Since(es, t, false) > 0 ==> Since(es, t, true) > 0)
  {
    var s := Run(START, es).cache;
    forall t
      ensures t in s && Heals(s[t]) <==> Seen(es, t, false) > 0 && Seen(es, t, true) == 0 && Since(es, t, true) > 0
      ensures t in s && Checked(s[t]).status.Closing? <==> Since(es, t, false) > 0 && Since(es, t, true) == 0
    {
      StatusIs(es, t);
    }
    QueriedUrls(s);
  }
}
