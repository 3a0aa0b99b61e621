/**
 The race of several receivers for one trace without a root, over a shared
 register that is only set when absent (setInt of
 pkg/componment/redis/redis_client.go): each receiver keeps the time of its own
 last non-top span and wins if the register holds that time when its quiet time
 is over. Lifetimes of the register key are separated by its expiry.
 */
module MissTopElection {
  import opened Basics

  /** A receiver gets a non-top span, or a top span; its quiet time is over; the key expires. */
  datatype Event = Other(receiver: nat, nano: int) | Top(receiver: nat) | Fire(receiver: nat) | Expire

  /** The shared key, and the checkNanoTime of every receiver that has a miss entry. */
  datatype State = State(key: Option<int>, pending: map<nat, int>)

  function SetIfAbsent(key: Option<int>, value: int): Option<int> {
    if key.None? then Some(value) else key
  }

  /** getInt: 0 for an absent key. */
  function Flag(key: Option<int>): int {
    if key.None? then 0 else key.value
  }

  function Step(s: State, e: Event): State {
    match e
    case Other(r, nano) =>
      State(if Flag(s.key) >= 0 then SetIfAbsent(s.key, nano) else s.key, s.pending[r := nano])
    case Top(r) => s.(key := SetIfAbsent(s.key, -1))
    case Fire(r) => s.(pending := s.pending - {r})
    case Expire => s.(key := None)
  }

  function Run(es: seq<Event>): State {
    if es == [] then State(None, map[]) else Step(Run(es[..|es| - 1]), es[|es| - 1])
  }

  /** The i-th event is a fire that finds the receiver's own time in the register. */
  ghost predicate WinAt(es: seq<Event>, i: nat)
    requires i < |es|
  {
    var s := Run(es[..i]);
    es[i].Fire? && es[i].receiver in s.pending && Flag(s.key) == s.pending[es[i].receiver]
  }

  /** Nano times are positive and no two spans share one. */
  ghost predicate NanosDistinct(es: seq<Event>) {
    && (forall i :: 0 <= i < |es| && es[i].Other? ==> es[i].nano > 0)
    && (forall i, j :: 0 <= i < j < |es| && es[i].Other? && es[j].Other? ==> es[i].nano != es[j].nano)
  }

  predicate Records(e: Event) {
    e.Other? || e.Top?
  }

  function Recorded(e: Event): int
    requires Records(e)
  {
    if e.Other? then e.nano else -1
  }

  /** The first span, of any receiver, since the key was last absent. */
  function FirstRecord(es: seq<Event>): (f: Option<nat>)
    ensures f.Some? ==> f.value < |es| && Records(es[f.value])
    ensures f.Some? ==> forall i :: f.value < i < |es| ==> !es[i].Expire?
  {
    if es == [] then None
    else
      var n := |es| - 1;
      if es[n].Expire? then None
      else
        var before := FirstRecord(es[..n]);
        if before.None? && Records(es[n]) then Some(n) else before
  }

  /** The register holds what the first span of the key's lifetime recorded, whatever came after. */
  lemma {:induction false} KeyIsFirst(es: seq<Event>)
    requires NanosDistinct(es)
    ensures var f := FirstRecord(es);
      Run(es).key == if f.None? then None else Some(Recorded(es[f.value]))
  {
    if es != [] {
      assert NanosDistinct(es[..|es| - 1]);
      KeyIsFirst(es[..|es| - 1]);
    }
  }

  /** The receiver's last non-top span, while its miss entry has not fired. */
  function LastPending(es: seq<Event>, r: nat): (m: Option<nat>)
    ensures m.Some? ==> m.value < |es| && es[m.value].Other? && es[m.value].receiver == r
    ensures m.Some? ==> forall i :: m.value < i < |es| ==> es[i] != Fire(r)
  {
    if es == [] then None
    else
      var n := |es| - 1;
      if es[n].Other? && es[n].receiver == r then Some(n)
      else if es[n] == Fire(r) then None
      else LastPending(es[..n], r)
  }

  lemma {:induction false} PendingIsLast(es: seq<Event>, r: nat)
    ensures var m := LastPending(es, r);
      && (r in Run(es).pending <==> m.Some?)
      && (m.Some? ==> Run(es).pending[r] == es[m.value].nano)
  {
    if es != [] {
      PendingIsLast(es[..|es| - 1], r);
    }
  }

  /** A receiver wins exactly if its last non-top span is the very span that took the key. */
  lemma WinExact(es: seq<Event>, i: nat)
    requires i < |es| && es[i].Fire? && NanosDistinct(es)
    ensures WinAt(es, i) <==>
      LastPending(es[..i], es[i].receiver).Some? && FirstRecord(es[..i]) == LastPending(es[..i], es[i].receiver)
  {
    var pre := es[..i];
    KeyIsFirst(pre);
    PendingIsLast(pre, es[i].receiver);
  }

  lemma {:induction false} FirstRecordStays(es: seq<Event>, i: nat)
    requires i <= |es| && FirstRecord(es[..i]).Some?
    requires forall k :: i <= k < |es| ==> !es[k].Expire?
    ensures FirstRecord(es) == FirstRecord(es[..i])
  {
    if i == |es| {
      assert es[..i] == es;
    } else {
      var n := |es| - 1;
      assert es[..n][..i] == es[..i];
      FirstRecordStays(es[..n], i);
    }
  }

  /** In one lifetime of the key at most one fire of at most one receiver wins. */
  lemma AtMostOneWinner(es: seq<Event>, i: nat, j: nat)
    requires NanosDistinct(es)
    requires i < j < |es| && WinAt(es, i) && WinAt(es, j)
    ensures exists k :: i < k < j && es[k].Expire?
  {
    WinExact(es, i);
    WinExact(es, j);
    if forall k :: i < k < j ==> !es[k].Expire? {
      var pi, pj := es[..i], es[..j];
      assert pj[..i] == pi;
      assert forall k :: i <= k < |pj| ==> !pj[k].Expire?;
      FirstRecordStays(pj, i);
      assert false;
    }
  }

  /** Winning is not guaranteed: a second non-top span of the winner leaves the trace without a reporter. */
  lemma NobodyWins(r: nat, first: int, second: int)
    requires 0 < first && 0 < second && first != second
    ensures !WinAt([Other(r, first), Other(r, second), Fire(r)], 2)
  {
    var one := [Other(r, first)];
    assert [Other(r, first), Other(r, second), Fire(r)][..2] == one + [Other(r, second)];
    assert (one + [Other(r, second)])[..1] == one && one[..0] == [];
    assert Run(one) == State(Some(first), map[r := first]);
  }

  /** And a top span that comes second does not stop the winner, unlike with the local cache. */
  lemma LateTopIgnored(r: nat, s: nat, nano: int)
    requires 0 < nano
    ensures WinAt([Other(r, nano), Top(s), Fire(r)], 2)
  {
    var one := [Other(r, nano)];
    assert [Other(r, nano), Top(s), Fire(r)][..2] == one + [Top(s)];
    assert (one + [Top(s)])[..1] == one && one[..0] == [];
    assert Run(one) == State(Some(nano), map[r := nano]);
  }
}
