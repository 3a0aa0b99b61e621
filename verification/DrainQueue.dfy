/**
 The send queues of pkg/clickhouse/cache.go over Go slices: appends write into
 the spare capacity of the array that drained batches still point into, and a
 drain reads the length before it takes the lock.
 */
module DrainQueue {
  import opened Basics

  /** A slice header: length elements of an array from an offset on. */
  datatype Slice<T> = Slice(arr: array<T>, off: nat, len: nat)

  ghost predicate InBounds<T>(s: Slice<T>) {
    s.off + s.len <= s.arr.Length
  }

  ghost function Content<T>(s: Slice<T>): seq<T>
    requires InBounds(s)
    reads s.arr
  {
    s.arr[s.off..s.off + s.len]
  }

  ghost function Arrays<T>(batches: seq<Slice<T>>): set<array<T>> {
    set i | 0 <= i < |batches| :: batches[i].arr
  }

  class Queue<T(0)> {
    /** The slice field. */
    var live: Slice<T>
    /** Everything that was ever stored, the batches handed out so far, and what they held then. */
    ghost var stored: seq<T>
    ghost var batches: seq<Slice<T>>
    ghost var handed: seq<seq<T>>

    /**
     Every batch still holds what it was handed out with, no batch reaches into
     the part of an array that an append may write, and the batches and the live
     queue together are everything stored, in order.
     */
    ghost predicate Valid()
      reads this, live.arr, Arrays(batches)
    {
      && InBounds(live)
      && |handed| == |batches|
      && (forall i :: 0 <= i < |batches| ==> Behind(batches[i], live) && Content(batches[i]) == handed[i])
      && Flat(handed) + Content(live) == stored
    }

    constructor ()
      ensures Valid() && stored == [] && handed == [] && fresh(live.arr)
    {
      var arr := new T[0];
      live := Slice(arr, 0, 0);
      stored, batches, handed := [], [], [];
    }

    /** append: in place while the capacity lasts, else into a larger array of any size. */
    method Append(xs: seq<T>)
      requires Valid()
      modifies this`live, this`stored, live.arr
      ensures Valid() && stored == old(stored) + xs && batches == old(batches) && handed == old(handed)
      ensures live.arr == old(live.arr) || fresh(live.arr)
      ensures live.len == old(live.len) + |xs| && Content(live) == old(Content(live)) + xs
    {
      if live.off + live.len + |xs| <= live.arr.Length {
        AppendInPlace(xs);
      } else {
        AppendGrown(xs);
      }
    }

    method AppendInPlace(xs: seq<T>)
      requires Valid() && live.off + live.len + |xs| <= live.arr.Length
      modifies this`live, this`stored, live.arr
      ensures Valid() && stored == old(stored) + xs && batches == old(batches) && handed == old(handed)
      ensures live == old(live).(len := old(live.len) + |xs|) && Content(live) == old(Content(live)) + xs
    {
      ghost var before := Content(live);
      assert forall i :: 0 <= i < |batches| ==> Behind(batches[i], live) && Content(batches[i]) == handed[i];
      Write(live.arr, live.off + live.len, xs);
      live := Slice(live.arr, live.off, live.len + |xs|);
      forall i | 0 <= i < |batches|
        ensures Behind(batches[i], live) && Content(batches[i]) == handed[i]
      {
        var b := batches[i];
        assert b.arr == live.arr ==> b.off + b.len <= live.off;
      }
      assert Content(live) == before + xs;
      Regroup(Flat(handed), before, xs);
      stored := stored + xs;
    }

    method AppendGrown(xs: seq<T>)
      requires Valid()
      modifies this`live, this`stored
      ensures Valid() && stored == old(stored) + xs && batches == old(batches) && handed == old(handed)
      ensures fresh(live.arr) && live.len == old(live.len) + |xs| && Content(live) == old(Content(live)) + xs
    {
      ghost var before := Content(live);
      var n := live.len + |xs|;
      var capacity: nat :| capacity >= n;
      var grown := new T[capacity];
      Write(grown, 0, live.arr[live.off..live.off + live.len]);
      assert grown[0..0 + live.len] == before;
      assert forall i :: 0 <= i < live.len ==> grown[i] == before[i];
      Write(grown, live.len, xs);
      assert forall i :: 0 <= i < live.len ==> grown[i] == before[i];
      assert grown[..live.len] == before && grown[live.len..n] == xs;
      assert grown[..n] == grown[..live.len] + grown[live.len..n];
      live := Slice(grown, 0, n);
      Regroup(Flat(handed), before, xs);
      stored := stored + xs;
    }

    /** The length read before the lock. */
    method ReadSize() returns (size: nat)
      requires Valid()
      ensures size == live.len
    {
      size := live.len;
    }

    /** The locked part of a drain; the second slice expression fails when size exceeds the length. */
    method Drain(size: nat) returns (fails: bool, toSends: Slice<T>)
      requires Valid()
      modifies this`live, this`batches, this`handed
      ensures Valid() && stored == old(stored)
      ensures fails <==> size > old(live.len)
      ensures fails ==> live == old(live) && batches == old(batches) && handed == old(handed)
      ensures !fails ==> batches == old(batches) + [toSends] && handed == old(handed) + [old(Content(live))[..size]]
      ensures !fails ==> Content(live) == old(Content(live))[size..]
    {
      toSends := Slice(live.arr, live.off, size);
      if size > live.len {
        return true, toSends;
      }
      fails := false;
      ghost var content := Content(live);
      FlatAppend(handed, content[..size], content[size..]);
      assert content[..size] + content[size..] == content;
      live := Slice(live.arr, live.off + size, live.len - size);
      assert Content(live) == content[size..] && Content(toSends) == content[..size];
      handed := handed + [content[..size]];
      batches := batches + [toSends];
    }

    /**
     One drain by the only drainer, with appends of others between the read of
     the size and the lock: it hands out exactly what was there at the read.
     */
    method GetToSend(meanwhile: seq<seq<T>>) returns (toSends: seq<Slice<T>>)
      requires Valid()
      modifies this, live.arr
      ensures Valid()
      ensures batches == old(batches) + toSends
      ensures toSends == [] <==> old(live.len) == 0
      ensures toSends != [] ==> |toSends| == 1 && handed == old(handed) + [old(Content(live))]
      ensures toSends != [] ==> stored == old(stored) + Flat(meanwhile) && Content(live) == Flat(meanwhile)
      ensures toSends == [] ==> stored == old(stored)
    {
      toSends := [];
      var size := ReadSize();
      if size == 0 {
        return;
      }
      AppendAll(meanwhile);
      var fails, batch := Drain(size);
      toSends := [batch];
    }

    method AppendAll(meanwhile: seq<seq<T>>)
      requires Valid()
      modifies this`live, this`stored, live.arr
      ensures Valid() && batches == old(batches) && handed == old(handed)
      ensures stored == old(stored) + Flat(meanwhile) && live.len >= old(live.len)
      ensures Content(live) == old(Content(live)) + Flat(meanwhile)
    {
      ghost var queued, before := Content(live), stored;
      for i := 0 to |meanwhile|
        invariant Valid() && batches == old(batches) && handed == old(handed)
        invariant live.arr == old(live.arr) || fresh(live.arr)
        invariant stored == before + Flat(meanwhile[..i])
        invariant Content(live) == queued + Flat(meanwhile[..i])
      {
        FlatNext(meanwhile, i);
        Regroup(before, Flat(meanwhile[..i]), meanwhile[i]);
        Regroup(queued, Flat(meanwhile[..i]), meanwhile[i]);
        Append(meanwhile[i]);
      }
      assert meanwhile[..|meanwhile|] == meanwhile;
      assert |Content(live)| == live.len;
    }
  }

  /** A batch ends before the region that the live slice may write. */
  ghost predicate Behind<T>(b: Slice<T>, live: Slice<T>) {
    InBounds(b) && (b.arr == live.arr ==> b.off + b.len <= live.off)
  }

  method Write<T>(a: array<T>, at: nat, xs: seq<T>)
    requires at + |xs| <= a.Length
    modifies a
    ensures a[at..at + |xs|] == xs
    ensures forall i :: 0 <= i < at ==> a[i] == old(a[i])
    ensures forall i :: at + |xs| <= i < a.Length ==> a[i] == old(a[i])
  {
    for i := 0 to |xs|
      invariant a[at..at + i] == xs[..i]
      invariant forall j :: 0 <= j < at ==> a[j] == old(a[j])
      invariant forall j :: at + |xs| <= j < a.Length ==> a[j] == old(a[j])
    {
      a[at + i] := xs[i];
      assert a[at..at + i + 1] == a[at..at + i] + [a[at + i]];
    }
  }

  // ---------------------------------------------------------------- runs

  /** Someone stores; drainer d reads the length; drainer d gets the lock. */
  datatype Event<T> = Store(xs: seq<T>) | Read(d: nat) | Lock(d: nat)

  /** sizes: the lengths that drainers have read and not used; failed: a slice expression was out of range. */
  datatype State<T> = State(stored: seq<T>, handed: seq<seq<T>>, live: seq<T>, sizes: map<nat, nat>, failed: bool)

  function Step<T>(s: State<T>, e: Event<T>): State<T> {
    match e
    case Store(xs) => s.(stored := s.stored + xs, live := s.live + xs)
    case Read(d) => if d in s.sizes || |s.live| == 0 then s else s.(sizes := s.sizes[d := |s.live|])
    case Lock(d) =>
      if d !in s.sizes then s
      else if s.sizes[d] > |s.live| then s.(sizes := s.sizes - {d}, failed := true)
      else s.(sizes := s.sizes - {d}, handed := s.handed + [s.live[..s.sizes[d]]], live := s.live[s.sizes[d]..])
  }

  function Run<T>(es: seq<Event<T>>): State<T> {
    if es == [] then State([], [], [], map[], false) else Step(Run(es[..|es| - 1]), es[|es| - 1])
  }

  /**
   Whatever the interleaving and the number of drainers: the batches in order and
   the live queue are what was stored.
   */
  lemma {:induction false} FifoExactlyOnce<T>(es: seq<Event<T>>)
    ensures var s := Run(es); Flat(s.handed) + s.live == s.stored
  {
    if es != [] {
      var s, e := Run(es[..|es| - 1]), es[|es| - 1];
      FifoExactlyOnce(es[..|es| - 1]);
      if e.Lock? && e.d in s.sizes && s.sizes[e.d] <= |s.live| {
        var batch, rest := s.live[..s.sizes[e.d]], s.live[s.sizes[e.d]..];
        FlatAppend(s.handed, batch, rest);
        assert batch + rest == s.live;
      } else if e.Store? {
        Regroup(Flat(s.handed), s.live, e.xs);
      }
    }
  }

  /** With one drainer the length it has read is always still there. */
  lemma {:induction false} OneDrainerNeverFails<T>(es: seq<Event<T>>, d: nat)
    requires forall i :: 0 <= i < |es| ==> (es[i].Read? ==> es[i].d == d) && (es[i].Lock? ==> es[i].d == d)
    ensures var s := Run(es);
      && !s.failed && s.sizes.Keys <= {d} && (d in s.sizes ==> s.sizes[d] <= |s.live|)
  {
    if es != [] {
      OneDrainerNeverFails(es[..|es| - 1], d);
    }
  }

  /** Nothing that drainer d does. */
  predicate OthersOnly<T>(es: seq<Event<T>>, d: nat) {
    forall i :: 0 <= i < |es| ==> es[i] != Read(d) && es[i] != Lock(d)
  }

  lemma {:induction false} SizeKept<T>(es: seq<Event<T>>, mid: seq<Event<T>>, d: nat)
    requires OthersOnly(mid, d) && d in Run(es).sizes
    ensures d in Run(es + mid).sizes && Run(es + mid).sizes[d] == Run(es).sizes[d]
  {
    if mid == [] {
      assert es + mid == es;
    } else {
      var all := es + mid;
      assert all[..|all| - 1] == es + mid[..|mid| - 1];
      SizeKept(es, mid[..|mid| - 1], d);
    }
  }

  /** A drain fails exactly if others drained more since its read than was stored since then. */
  lemma FailsIff<T>(es: seq<Event<T>>, mid: seq<Event<T>>, d: nat)
    requires d !in Run(es).sizes && |Run(es).live| > 0 && OthersOnly(mid, d)
    ensures var s, t := Run(es), Run(es + [Read(d)] + mid);
      !t.failed ==> (Run(es + [Read(d)] + mid + [Lock(d)]).failed <==>
        |Flat(t.handed)| - |Flat(s.handed)| > |t.stored| - |s.stored|)
  {
    var read := es + [Read(d)];
    var all := read + mid;
    var last := all + [Lock(d)];
    assert read[..|es|] == es && last[..|all|] == all;
    SizeKept(read, mid, d);
    FifoExactlyOnce(es);
    FifoExactlyOnce(all);
    var s, t := Run(es), Run(all);
    assert |s.stored| == |Flat(s.handed)| + |s.live| && |t.stored| == |Flat(t.handed)| + |t.live|;
  }

  /** Two drainers that read the same length: the second one fails. */
  lemma SecondDrainerFails<T>(x: T)
    ensures Run([Store([x]), Read(0), Read(1), Lock(0), Lock(1)]).failed
  {
    var e1 := [Store([x])];
    var e2 := e1 + [Read(0)];
    var mid := [Read(1), Lock(0)];
    var e3, e4 := e2 + [Read(1)], e2 + mid;
    var es := e4 + [Lock(1)];
    assert e1[..0] == [] && e2[..1] == e1 && e3[..2] == e2 && e4[..3] == e3 && es[..4] == e4;
    assert Run(e1) == State([x], [], [x], map[], false);
    assert Run(e3) == State([x], [], [x], map[0 := 1, 1 := 1], false);
    assert [x][..1] == [x] && map[0 := 1, 1 := 1] - {0} == map[1 := 1];
    assert Run(e4) == Step(Run(e3), Lock(0)) == State([x], [[x]], [], map[1 := 1], false);
    assert es == [Store([x]), Read(0), Read(1), Lock(0), Lock(1)];
  }
}
