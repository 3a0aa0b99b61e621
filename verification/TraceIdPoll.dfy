/**
 Delivery of sampled trace ids by poll windows (pkg/componment/profile/
 traceid_cache.go and profile_server.go): consumed ids get a rising index, and an
 agent that sends back the QueryTime of its last answer gets the ids whose index
 lies between that time and the index read at the start of its poll.
 */
module TraceIdPoll {
  import opened Basics

  datatype TraceIdTime = TraceIdTime(index: int, expireTime: int)

  /** The ids of a window that the agent did not report itself. */
  function Selected(ids: map<string, TraceIdTime>, ignore: set<string>, start: int, end: int): set<string> {
    if end == -1 || start == end then {}
    else set id | id in ids && start < ids[id].index <= end && id !in ignore
  }

  function Unexpired(ids: map<string, TraceIdTime>, now: int): map<string, TraceIdTime> {
    map id | id in ids && now <= ids[id].expireTime :: ids[id]
  }

  class TraceIdCache {
    const timeout: int
    var traceIds: map<string, TraceIdTime>

    constructor (timeoutSeconds: int)
      ensures timeout == timeoutSeconds * 1_000_000_000 && traceIds == map[]
    {
      timeout := timeoutSeconds * 1_000_000_000;
      traceIds := map[];
    }

    /** index is what IncrTraceIndex answers, not positive on an error; incremented tells whether it was asked. */
    method Consume(traceId: string, index: int, now: int) returns (incremented: bool)
      modifies this
      ensures incremented <==> traceId !in old(traceIds)
      ensures traceIds == if incremented && index > 0
        then old(traceIds)[traceId := TraceIdTime(index, now + timeout)] else old(traceIds)
    {
      incremented := false;
      if traceId !in traceIds {
        incremented := true;
        if index > 0 {
          traceIds := traceIds[traceId := TraceIdTime(index, now + timeout)];
        }
      }
    }

    method CleanExpireTraceId(now: int)
      modifies this
      ensures traceIds == Unexpired(old(traceIds), now)
    {
      ghost var all := traceIds;
      var todo := traceIds.Keys;
      while todo != {}
        invariant todo <= traceIds.Keys <= all.Keys
        invariant forall id :: id in traceIds ==> traceIds[id] == all[id]
        invariant forall id :: id in all ==> (id in traceIds <==> id in todo || now <= all[id].expireTime)
      {
        var id :| id in todo;
        if now > traceIds[id].expireTime {
          traceIds := traceIds - {id};
        }
        todo := todo - {id};
      }
    }

    method GetTraceIds(ignoreTraces: set<string>, startIndex: int, endIndex: int) returns (result: seq<string>)
      ensures forall id :: id in result <==> id in Selected(traceIds, ignoreTraces, startIndex, endIndex)
      ensures NoDup(result)
    {
      result := [];
      if endIndex == -1 || startIndex == endIndex {
        return;
      }
      var todo := traceIds.Keys;
      while todo != {}
        invariant todo <= traceIds.Keys
        invariant forall id :: id in result <==>
          id in Selected(traceIds, ignoreTraces, startIndex, endIndex) && id !in todo
        invariant NoDup(result)
      {
        var id :| id in todo;
        var time := traceIds[id];
        if time.index > startIndex && time.index <= endIndex {
          if id !in ignoreTraces {
            assert forall i :: 0 <= i < |result| ==> result[i] in result;
            result := result + [id];
          }
        }
        todo := todo - {id};
      }
    }
  }

  /** The three caches of the server, with the order of the reads of one poll. */
  class ProfileServer {
    const normal: TraceIdCache
    const slow: TraceIdCache
    const error: TraceIdCache

    constructor (cacheTime: int)
      ensures fresh(normal) && fresh(slow) && fresh(error)
      ensures normal.traceIds == slow.traceIds == error.traceIds == map[]
    {
      normal := new TraceIdCache(cacheTime);
      slow := new TraceIdCache(cacheTime);
      error := new TraceIdCache(cacheTime);
    }

    /**
     endIndex was read before the scans and is returned as QueryTime; each list
     of ids that the agent reports is ignored in its own cache.
     */
    method QueryProfiles(normalIds: seq<string>, slowIds: seq<string>, errorIds: seq<string>,
                         queryTime: int, endIndex: int)
      returns (newQueryTime: int, normals: seq<string>, slows: seq<string>, errors: seq<string>)
      ensures newQueryTime == endIndex
      ensures forall id :: id in normals <==> id in Selected(normal.traceIds, SetOf(normalIds), queryTime, endIndex)
      ensures forall id :: id in slows <==> id in Selected(slow.traceIds, SetOf(slowIds), queryTime, endIndex)
      ensures forall id :: id in errors <==> id in Selected(error.traceIds, SetOf(errorIds), queryTime, endIndex)
    {
      var normalIgnore := ToSet(normalIds);
      var slowIgnore := ToSet(slowIds);
      var errorIgnore := ToSet(errorIds);
      newQueryTime := endIndex;
      normals := normal.GetTraceIds(normalIgnore, queryTime, endIndex);
      slows := slow.GetTraceIds(slowIgnore, queryTime, endIndex);
      errors := error.GetTraceIds(errorIgnore, queryTime, endIndex);
    }
  }

  function SetOf(ids: seq<string>): set<string> {
    set x | x in ids
  }

  method ToSet(ids: seq<string>) returns (s: set<string>)
    ensures s == SetOf(ids)
  {
    s := {};
    for i := 0 to |ids|
      invariant s == SetOf(ids[..i])
    {
      assert ids[..i + 1] == ids[..i] + [ids[i]];
      s := s + {ids[i]};
    }
    assert ids[..|ids|] == ids;
  }

  // ---------------------------------------------------------------- how long an id is cached

  /** An id is consumed, with the index that it would get; the cache is cleaned. */
  datatype Use = Consumed(id: string, index: int, now: int) | Cleaned(now: int)

  function Cached(timeout: int, us: seq<Use>): map<string, TraceIdTime> {
    if us == [] then map[]
    else
      var ids, u := Cached(timeout, us[..|us| - 1]), us[|us| - 1];
      match u
      case Consumed(id, index, now) =>
        if id !in ids && index > 0 then ids[id := TraceIdTime(index, now + timeout)] else ids
      case Cleaned(now) => Unexpired(ids, now)
  }

  /** A cleaning after use m comes later than the time. */
  ghost predicate CleanedAfter(us: seq<Use>, m: nat, time: int)
    requires m < |us|
  {
    exists i :: m < i < |us| && us[i].Cleaned? && us[i].now > time
  }

  /** The last consumption that stored the id. */
  function StoredAt(timeout: int, us: seq<Use>, id: string): (m: int)
    ensures -1 <= m < |us|
    ensures m >= 0 ==> us[m].Consumed? && us[m].id == id && us[m].index > 0
  {
    if us == [] then -1
    else
      var n := |us| - 1;
      if us[n].Consumed? && us[n].id == id && us[n].index > 0 && id !in Cached(timeout, us[..n]) then n
      else StoredAt(timeout, us[..n], id)
  }

  /**
   Over every run of one cache: an id is cached, under the index and the time of
   its consumption, until a cleaning comes more than the timeout after that; to
   consume it again before does nothing.
   */
  lemma {:induction false} CachedUntil(timeout: int, us: seq<Use>, id: string)
    ensures var ids, m := Cached(timeout, us), StoredAt(timeout, us, id);
      && (id in ids <==> m >= 0 && !CleanedAfter(us, m, us[m].now + timeout))
      && (id in ids ==> ids[id] == TraceIdTime(us[m].index, us[m].now + timeout))
  {
    if us != [] {
      var n := |us| - 1;
      CachedUntil(timeout, us[..n], id);
      var m := StoredAt(timeout, us[..n], id);
      if m >= 0 && StoredAt(timeout, us, id) == m {
        assert forall i :: 0 <= i < n ==> us[..n][i] == us[i];
        var time := us[m].now + timeout;
        assert CleanedAfter(us, m, time) <==>
          CleanedAfter(us[..n], m, time) || (us[n].Cleaned? && us[n].now > time);
      }
    }
  }

  // ---------------------------------------------------------------- runs

  /** late: when the id was stored, the window of its index had already been answered. */
  datatype Entry = Entry(index: int, late: bool)

  /**
   One cache and one agent. index is the shared counter, reserved the ids that
   have an index but are not stored yet, start the agent's QueryTime, reading the
   end of a poll between its two steps, answers what the agent got.
   */
  datatype World = World(
    index: int,
    reserved: map<string, int>,
    ids: map<string, Entry>,
    start: int,
    reading: Option<int>,
    answers: seq<set<(string, int)>>)

  /**
   Consume is Reserve and Store as one step; Other is a consumption by another
   cache on the same counter; a poll is ReadEnd (or ReadFails) and then Scan;
   Forget is the expiry of an id.
   */
  datatype Event =
    | Consume(id: string) | Reserve(id: string) | Store(id: string) | Other
    | ReadEnd | ReadFails | Scan(ignore: set<string>) | Forget(id: string)

  const START := World(0, map[], map[], 0, None, [])

  /** GetTraceIndex: -1 while the counter does not exist. */
  function CurrentIndex(index: int): int {
    if index == 0 then -1 else index
  }

  /** The cached ids as the cache sees them; expiry is an event of its own here. */
  function Times(ids: map<string, Entry>): map<string, TraceIdTime> {
    map id | id in ids :: TraceIdTime(ids[id].index, 0)
  }

  /** What a scan hands out, with the index of each id. */
  function Window(w: World, ignore: set<string>, end: int): set<(string, int)> {
    set id | id in Selected(Times(w.ids), ignore, w.start, end) :: (id, w.ids[id].index)
  }

  function Step(w: World, e: Event): World {
    match e
    case Consume(id) =>
      if id in w.ids || id in w.reserved then w
      else w.(index := w.index + 1, ids := w.ids[id := Entry(w.index + 1, w.index + 1 <= w.start)])
    case Reserve(id) =>
      if id in w.ids || id in w.reserved then w
      else w.(index := w.index + 1, reserved := w.reserved[id := w.index + 1])
    case Store(id) =>
      if id !in w.reserved then w
      else w.(reserved := w.reserved - {id},
              ids := w.ids[id := Entry(w.reserved[id], w.reserved[id] <= w.start)])
    case Other => w.(index := w.index + 1)
    case ReadEnd => if w.reading.Some? then w else w.(reading := Some(CurrentIndex(w.index)))
    case ReadFails => if w.reading.Some? then w else w.(reading := Some(-1))
    case Scan(ignore) =>
      if w.reading.None? then w
      else w.(start := w.reading.value, reading := None, answers := w.answers + [Window(w, ignore, w.reading.value)])
    case Forget(id) => w.(ids := w.ids - {id})
  }

  function Run(es: seq<Event>): World {
    if es == [] then START else Step(Run(es[..|es| - 1]), es[|es| - 1])
  }

  function Deliveries(answers: seq<set<(string, int)>>, id: string, index: int): nat {
    if answers == [] then 0
    else Deliveries(answers[..|answers| - 1], id, index) + (if (id, index) in answers[|answers| - 1] then 1 else 0)
  }

  /** No poll failed to read the counter. */
  predicate NoFailures(es: seq<Event>) {
    forall i :: 0 <= i < |es| ==> !es[i].ReadFails?
  }

  /** Everything delivered lies in an answered window; start only falls below while nothing was consumed. */
  ghost predicate Answered(w: World) {
    && 0 <= w.index && -1 <= w.start <= w.index
    && (w.reading.Some? ==>
         -1 <= w.reading.value <= w.index && w.start <= if w.reading.value == -1 then 0 else w.reading.value)
    && (w.reading == Some(-1) ==> w.start <= 0)
    && (forall id :: id in w.ids ==> 0 < w.ids[id].index <= w.index)
    && (forall id :: id in w.reserved ==> 0 < w.reserved[id] <= w.index)
    && (forall k, id, i :: 0 <= k < |w.answers| && (id, i) in w.answers[k] ==> 0 < i <= w.start)
  }

  lemma {:induction false} RunAnswered(es: seq<Event>)
    requires NoFailures(es)
    ensures Answered(Run(es))
  {
    if es != [] {
      RunAnswered(es[..|es| - 1]);
      StepAnswered(Run(es[..|es| - 1]), es[|es| - 1]);
    }
  }

  lemma StepAnswered(w: World, e: Event)
    requires Answered(w) && !e.ReadFails?
    ensures Answered(Step(w, e))
  {
    if e.Scan? && w.reading.Some? {
      var v := Step(w, e);
      forall k, id, i | 0 <= k < |v.answers| && (id, i) in v.answers[k]
        ensures 0 < i <= v.start
      {
        if k < |w.answers| {
          assert (id, i) in w.answers[k];
        }
      }
    }
  }

  lemma {:induction false} NoneBeyond(answers: seq<set<(string, int)>>, id: string, index: int)
    requires forall k :: 0 <= k < |answers| ==> (id, index) !in answers[k]
    ensures Deliveries(answers, id, index) == 0
  {
    if answers != [] {
      NoneBeyond(answers[..|answers| - 1], id, index);
    }
  }

  /** While no read of the counter fails, no consumption is delivered twice, whatever expires or is ignored. */
  lemma {:induction false} AtMostOnce(es: seq<Event>, id: string, index: int)
    requires NoFailures(es)
    ensures Deliveries(Run(es).answers, id, index) <= 1
  {
    if es != [] {
      var init, e := es[..|es| - 1], es[|es| - 1];
      AtMostOnce(init, id, index);
      RunAnswered(init);
      var w := Run(init);
      if e.Scan? && w.reading.Some? {
        var answer := Window(w, e.ignore, w.reading.value);
        assert (w.answers + [answer])[..|w.answers|] == w.answers;
        if (id, index) in answer {
          NoneBeyond(w.answers, id, index);
        }
      }
    }
  }

  /** The agent never reports the id itself. */
  predicate NeverIgnored(es: seq<Event>, id: string) {
    forall i :: 0 <= i < |es| && es[i].Scan? ==> id !in es[i].ignore
  }

  /** The fields fit together, whether reads fail or not; only a failed read lets start fall. */
  ghost predicate Sound(w: World) {
    && 0 <= w.index && -1 <= w.start <= w.index
    && (w.reading.Some? ==> w.reading.value == -1 || w.start <= w.reading.value <= w.index)
    && (forall id :: id in w.ids ==> 0 < w.ids[id].index <= w.index)
    && (forall id :: id in w.reserved ==> 0 < w.reserved[id] <= w.index && id !in w.ids)
  }

  /** What was delivered has an index that was handed out, and is not what is being stored. */
  ghost predicate SoundAnswer(w: World, answer: set<(string, int)>) {
    forall id, i :: (id, i) in answer ==> i <= w.index && (id in w.reserved ==> i != w.reserved[id])
  }

  ghost predicate SoundAnswers(w: World) {
    forall k :: 0 <= k < |w.answers| ==> SoundAnswer(w, w.answers[k])
  }

  lemma {:induction false} RunSound(es: seq<Event>)
    ensures Sound(Run(es)) && SoundAnswers(Run(es))
  {
    if es != [] {
      RunSound(es[..|es| - 1]);
      StepSound(Run(es[..|es| - 1]), es[|es| - 1]);
    }
  }

  lemma StepSound(w: World, e: Event)
    requires Sound(w) && SoundAnswers(w)
    ensures Sound(Step(w, e)) && SoundAnswers(Step(w, e))
  {
    var v := Step(w, e);
    assert Sound(v);
    forall k | 0 <= k < |v.answers|
      ensures SoundAnswer(v, v.answers[k])
    {
      if k < |w.answers| {
        assert SoundAnswer(w, w.answers[k]);
      }
    }
  }

  /** A scan with a failed read while the id's window is answered: the agent falls back behind the id. */
  predicate FallsBehind(w: World, e: Event, id: string) {
    e.Scan? && w.reading == Some(-1) && id in w.ids && w.ids[id].index <= w.start
  }

  /** How often that happened since the id was stored. */
  function Falls(es: seq<Event>, id: string): nat {
    if es == [] || id !in Run(es).ids then 0
    else Falls(es[..|es| - 1], id) + (if FallsBehind(Run(es[..|es| - 1]), es[|es| - 1], id) then 1 else 0)
  }

  function One(b: bool): int {
    if b then 1 else 0
  }

  /** A scan whose window holds the id, which the agent reports itself: it is left out of the answer. */
  predicate LeavesOut(w: World, e: Event, id: string) {
    && e.Scan? && w.reading.Some? && id in w.ids && id in e.ignore
    && w.start < w.ids[id].index <= w.reading.value
  }

  function LeftOut(es: seq<Event>, id: string): nat {
    if es == [] || id !in Run(es).ids then 0
    else LeftOut(es[..|es| - 1], id) + (if LeavesOut(Run(es[..|es| - 1]), es[|es| - 1], id) then 1 else 0)
  }

  /**
   The exact number of deliveries of a cached id, over every run with failed
   reads, expiries, other polls and split consumptions: one for each fall of the
   agent behind the id, one more if its window is answered now, one less if it was
   when the id was stored, and one less for each scan that left it out because the
   agent reported it itself.
   */
  lemma {:induction false} DeliveriesExact(es: seq<Event>, id: string)
    requires id in Run(es).ids
    ensures var w := Run(es);
      Deliveries(w.answers, id, w.ids[id].index) ==
      Falls(es, id) + One(w.ids[id].index <= w.start) - One(w.ids[id].late) - LeftOut(es, id)
  {
    var init, e := es[..|es| - 1], es[|es| - 1];
    var w := Run(init);
    RunSound(init);
    if id !in w.ids {
      assert Falls(init, id) == 0 && LeftOut(init, id) == 0;
      StoredFresh(w, e, id);
    } else {
      DeliveriesExact(init, id);
      EntryStays(w, e, id);
      if e.Scan? && w.reading.Some? {
        ScanDelivers(w, id, e.ignore);
      }
      assert Falls(es, id) == Falls(init, id) + One(FallsBehind(w, e, id));
      assert LeftOut(es, id) == LeftOut(init, id) + One(LeavesOut(w, e, id));
    }
  }

  lemma {:induction false} NeverLeftOut(es: seq<Event>, id: string)
    requires NeverIgnored(es, id)
    ensures LeftOut(es, id) == 0
  {
    if es != [] {
      NeverLeftOut(es[..|es| - 1], id);
    }
  }

  /** An id that is just stored has not been delivered under its index. */
  lemma StoredFresh(w: World, e: Event, id: string)
    requires Sound(w) && SoundAnswers(w) && id !in w.ids && id in Step(w, e).ids
    ensures var v := Step(w, e);
      && v.answers == w.answers && Deliveries(w.answers, id, v.ids[id].index) == 0
      && (v.ids[id].late <==> v.ids[id].index <= v.start)
  {
    var i := Step(w, e).ids[id].index;
    forall k | 0 <= k < |w.answers|
      ensures (id, i) !in w.answers[k]
    {
      assert SoundAnswer(w, w.answers[k]);
    }
    NoneBeyond(w.answers, id, i);
  }

  /** A scan delivers a cached id exactly if its index lies in the window and the agent does not report it. */
  lemma ScanDelivers(w: World, id: string, ignore: set<string>)
    requires Sound(w) && id in w.ids && w.reading.Some?
    ensures var n, i := Step(w, Scan(ignore)), w.ids[id].index;
      && n.start == w.reading.value
      && Deliveries(n.answers, id, i) == Deliveries(w.answers, id, i) + One(w.start < i <= n.start && id !in ignore)
  {
    var n, i := Step(w, Scan(ignore)), w.ids[id].index;
    assert n.answers[..|w.answers|] == w.answers;
    assert (id, i) in n.answers[|w.answers|] <==> w.start < i <= w.reading.value && id !in ignore;
  }

  /**
   Once the window of an id that was not late is answered, it has come once if and
   only if the agent never fell behind it.
   */
  lemma OnceIffNoFall(es: seq<Event>, id: string)
    requires NeverIgnored(es, id) && id in Run(es).ids
    requires !Run(es).ids[id].late && Run(es).ids[id].index <= Run(es).start
    ensures Deliveries(Run(es).answers, id, Run(es).ids[id].index) >= 1
    ensures Deliveries(Run(es).answers, id, Run(es).ids[id].index) == 1 <==> Falls(es, id) == 0
  {
    DeliveriesExact(es, id);
    NeverLeftOut(es, id);
  }

  /**
   Without failed reads every cached id has been delivered exactly once if its
   window is answered, and not yet otherwise; except for an id stored late, which
   is never delivered.
   */
  lemma ExactlyOnce(es: seq<Event>, id: string)
    requires NoFailures(es) && NeverIgnored(es, id)
    requires id in Run(es).ids
    ensures var w := Run(es);
      Deliveries(w.answers, id, w.ids[id].index) == if w.ids[id].index <= w.start && !w.ids[id].late then 1 else 0
  {
    DeliveriesExact(es, id);
    NeverLeftOut(es, id);
    NoFalls(es, id);
    if Run(es).ids[id].late {
      LateIsAnswered(es, id);
    }
  }

  lemma {:induction false} NoFalls(es: seq<Event>, id: string)
    requires NoFailures(es) && id in Run(es).ids
    ensures Falls(es, id) == 0
  {
    var init, e := es[..|es| - 1], es[|es| - 1];
    RunAnswered(init);
    RunSound(init);
    if id in Run(init).ids {
      NoFalls(init, id);
      NoFallNow(Run(init), e, id);
    }
  }

  lemma {:induction false} LateIsAnswered(es: seq<Event>, id: string)
    requires NoFailures(es) && id in Run(es).ids && Run(es).ids[id].late
    ensures Run(es).ids[id].index <= Run(es).start
  {
    var init, e := es[..|es| - 1], es[|es| - 1];
    RunAnswered(init);
    RunSound(init);
    if id in Run(init).ids {
      EntryStays(Run(init), e, id);
      LateIsAnswered(init, id);
      NoFallNow(Run(init), e, id);
    } else {
      StoredFresh(Run(init), e, id);
    }
  }

  lemma NoFallNow(w: World, e: Event, id: string)
    requires Answered(w) && Sound(w) && id in w.ids && id in Step(w, e).ids
    ensures !FallsBehind(w, e, id)
    ensures w.ids[id].index <= w.start ==> Step(w, e).ids[id].index <= Step(w, e).start
  {
    EntryStays(w, e, id);
  }

  /** An entry does not change while it is there, and only a scan answers. */
  lemma EntryStays(w: World, e: Event, id: string)
    requires Sound(w) && id in w.ids && id in Step(w, e).ids
    ensures Step(w, e).ids[id] == w.ids[id]
    ensures !e.Scan? || w.reading.None? ==> Step(w, e).answers == w.answers && Step(w, e).start == w.start
  {
  }

  /** With Consume as one step nothing is ever stored late. */
  lemma {:induction false} AtomicNeverLate(es: seq<Event>, id: string)
    requires NoFailures(es) && (forall i :: 0 <= i < |es| ==> !es[i].Reserve?)
    requires id in Run(es).ids
    ensures !Run(es).ids[id].late && Run(es).reserved == map[]
  {
    var init := es[..|es| - 1];
    RunAnswered(init);
    NothingReserved(init);
    if id in Run(init).ids {
      AtomicNeverLate(init, id);
    }
  }

  lemma {:induction false} NothingReserved(es: seq<Event>)
    requires forall i :: 0 <= i < |es| ==> !es[i].Reserve?
    ensures Run(es).reserved == map[]
  {
    if es != [] {
      NothingReserved(es[..|es| - 1]);
    }
  }

  /** A poll that falls between the two steps of a consumption loses the id for the agent. */
  lemma SplitConsumeLoses(id: string)
    ensures var w := Run([Reserve(id), ReadEnd, Scan({}), Store(id)]);
      id in w.ids && w.ids[id] == Entry(1, true) && w.start == 1 && Deliveries(w.answers, id, 1) == 0
  {
    var e1, e2, e3 := [Reserve(id)], [Reserve(id), ReadEnd], [Reserve(id), ReadEnd, Scan({})];
    var es := e3 + [Store(id)];
    assert es[..3] == e3 && e3[..2] == e2 && e2[..1] == e1 && e1[..0] == [];
    assert Run(e1) == START.(index := 1, reserved := map[id := 1]);
    assert Run(e2) == Run(e1).(reading := Some(1));
    assert Window(Run(e2), {}, 1) == {};
    assert Run(e3) == Run(e1).(start := 1, answers := [{}]);
    NoneBeyond(Run(e3).answers, id, 1);
    assert es == [Reserve(id), ReadEnd, Scan({}), Store(id)];
  }

  /** A failed read sends the agent back to the beginning: its next good poll repeats every cached id. */
  lemma FailureRepeatsAll(es: seq<Event>)
    requires Run(es).reading.None? && Run(es).index > 0
    ensures var w := Run(es);
      var n := Run(es + [ReadFails, Scan({}), ReadEnd, Scan({})]);
      |n.answers| == |w.answers| + 2
      && n.answers[|w.answers| + 1] == set id | id in w.ids :: (id, w.ids[id].index)
  {
    var w := Run(es);
    RunSound(es);
    RunTwo(es, ReadFails, Scan({}));
    RunTwo(es + [ReadFails, Scan({})], ReadEnd, Scan({}));
    assert es + [ReadFails, Scan({})] + [ReadEnd, Scan({})] == es + [ReadFails, Scan({}), ReadEnd, Scan({})];
    TwoPolls(w);
  }

  lemma TwoPolls(w: World)
    requires Sound(w) && w.reading.None? && w.index > 0
    ensures var n := Step(Step(Step(Step(w, ReadFails), Scan({})), ReadEnd), Scan({}));
      |n.answers| == |w.answers| + 2
      && n.answers[|w.answers| + 1] == set id | id in w.ids :: (id, w.ids[id].index)
  {
    assert Window(w, {}, -1) == {};
    assert Selected(Times(w.ids), {}, -1, w.index) == w.ids.Keys;
  }

  lemma RunTwo(es: seq<Event>, a: Event, b: Event)
    ensures Run(es + [a, b]) == Step(Step(Run(es), a), b)
  {
    assert (es + [a, b])[..|es| + 1] == es + [a] && (es + [a])[..|es|] == es;
  }
}
