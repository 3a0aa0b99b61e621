/**
 Several receivers that steer one shared sample value (the redis cache of
 pkg/componment/redis/redis_api.go): the read, the write after the nodes were
 asked and the write of the recovery of one check are separate steps, and the
 steps of the receivers interleave freely. The shared key can expire, and reads
 and writes can fail.
 */
module SharedSample {
  import opened Basics
  import opened MemorySampler

  /** Between its read and its end a check holds a value; asks: the nodes are still to be asked. */
  datatype Phase = Idle | Holding(value: int, asks: bool)

  datatype Receiver = Receiver(local: int, phase: Phase)

  datatype World = World(shared: Option<int>, receivers: map<nat, Receiver>)

  /** written: the write of the new value reached the cache, whose errors are only logged. */
  datatype Event =
    | Read(r: nat) | ReadFails(r: nat) | Ask(r: nat, exceed: bool, sampled: bool, written: bool)
    | Finish(r: nat, due: bool, written: bool) | KeyExpires

  /** getInt: 0 for a missing key, as after an error. */
  function Get(shared: Option<int>): int {
    if shared.None? then 0 else shared.value
  }

  /** A check begins with the value that its read gave. */
  function Received(cfg: Config, w: World, r: nat, v: int): World
    requires r in w.receivers
  {
    w.(receivers := w.receivers[r := Receiver(v, Holding(v, v == w.receivers[r].local && v < cfg.maxSample))])
  }

  function Step(cfg: Config, w: World, e: Event): World {
    if e.KeyExpires? then w.(shared := None)
    else if e.r !in w.receivers then w
    else
      var me := w.receivers[e.r];
      match e
      case Read(r) => if me.phase.Idle? then Received(cfg, w, r, Get(w.shared)) else w
      case ReadFails(r) => if me.phase.Idle? then Received(cfg, w, r, 0) else w
      case Ask(r, exceed, sampled, written) =>
        if !me.phase.Holding? || !me.phase.asks then w
        else
          var v := Raised(cfg, me.phase.value, exceed, sampled);
          if v == me.phase.value then w.(receivers := w.receivers[r := Receiver(me.local, Holding(v, false))])
          else World(if written then Some(v) else w.shared, w.receivers[r := Receiver(v, Holding(v, false))])
      case Finish(r, due, written) =>
        if !me.phase.Holding? || me.phase.asks then w
        else if !due then w.(receivers := w.receivers[r := Receiver(me.local, Idle)])
        else
          var v := Lowered(cfg, me.phase.value);
          World(if written then Some(v) else w.shared, w.receivers[r := Receiver(v, Idle)])
  }

  function Start(cfg: Config, ids: set<nat>): World {
    World(Some(cfg.minSample), map r | r in ids :: Receiver(cfg.minSample, Idle))
  }

  function Run(cfg: Config, ids: set<nat>, es: seq<Event>): World {
    if es == [] then Start(cfg, ids) else Step(cfg, Run(cfg, ids, es[..|es| - 1]), es[|es| - 1])
  }

  predicate Within(cfg: Config, v: int) {
    cfg.minSample <= v <= cfg.maxSample
  }

  /** Every value that is shared, shown to agents or held is within the bounds. */
  ghost predicate Bounded(cfg: Config, w: World) {
    && (w.shared.Some? ==> Within(cfg, w.shared.value))
    && forall r :: r in w.receivers ==>
         Within(cfg, w.receivers[r].local) &&
         (w.receivers[r].phase.Holding? ==>
            Within(cfg, w.receivers[r].phase.value) &&
            (w.receivers[r].phase.asks ==> w.receivers[r].phase.value < cfg.maxSample))
  }

  lemma StepBounded(cfg: Config, w: World, e: Event)
    requires Ordered(cfg) && Bounded(cfg, w)
    requires e.Read? ==> Within(cfg, Get(w.shared))
    requires e.ReadFails? ==> Within(cfg, 0)
    ensures Bounded(cfg, Step(cfg, w, e))
  {
  }

  lemma {:induction false} SharedStays(cfg: Config, ids: set<nat>, es: seq<Event>)
    requires forall i :: 0 <= i < |es| ==> !es[i].KeyExpires?
    ensures Run(cfg, ids, es).shared.Some?
  {
    if es != [] {
      SharedStays(cfg, ids, es[..|es| - 1]);
    }
  }

  /** The key goes away, or a read fails. */
  predicate Disturbs(e: Event) {
    e.KeyExpires? || e.ReadFails?
  }

  /**
   However the checks of the receivers interleave, the value stays within its
   bounds while the key lives and no read fails.
   */
  lemma {:induction false} RunBounded(cfg: Config, ids: set<nat>, es: seq<Event>)
    requires Ordered(cfg)
    requires Within(cfg, 0) || forall i :: 0 <= i < |es| ==> !Disturbs(es[i])
    ensures Bounded(cfg, Run(cfg, ids, es))
  {
    if es != [] {
      var init := es[..|es| - 1];
      RunBounded(cfg, ids, init);
      if !Within(cfg, 0) {
        SharedStays(cfg, ids, init);
      }
      StepBounded(cfg, Run(cfg, ids, init), es[|es| - 1]);
    }
  }

  /**
   Every move of a value, over every state: reading takes over the shared value;
   asking raises it by one if something was sampled, else lifts it to the initial
   value if the limit is exceeded below it; finishing lowers a due value by one,
   not below the minimum; and what is written is shared.
   */
  lemma MovesBy(cfg: Config, w: World, e: Event)
    requires !e.KeyExpires? && e.r in w.receivers && Bounded(cfg, w)
    ensures var me, v := w.receivers[e.r], Step(cfg, w, e);
      var local := v.receivers[e.r].local;
      match e
      case Read(r) =>
        me.phase.Idle? && w.shared.Some? ==> local == w.shared.value && v.shared == w.shared
      case ReadFails(r) => me.phase.Idle? ==> local == 0 && v.shared == w.shared
      case Ask(r, exceed, sampled, written) =>
        me.phase.Holding? && me.phase.asks ==>
          var was := me.phase.value;
          if sampled then local == was + 1 && (written ==> v.shared == Some(was + 1))
          else if exceed && was < cfg.initSample then
            local == cfg.initSample && (written ==> v.shared == Some(cfg.initSample))
          else v.shared == w.shared
      case Finish(r, due, written) =>
        me.phase.Holding? && !me.phase.asks ==>
          var was := me.phase.value;
          if due && was > cfg.minSample then local == was - 1 && (written ==> v.shared == Some(was - 1))
          else if due then local == was && (written ==> v.shared == Some(was))
          else v.shared == w.shared
  {
  }

  ghost predicate BoundedAfter(cfg: Config, ids: set<nat>, es: seq<Event>) {
    Bounded(cfg, Run(cfg, ids, es))
  }

  predicate Allowed(es: seq<Event>, expires: bool, fails: bool) {
    forall i :: 0 <= i < |es| ==> (es[i].KeyExpires? ==> expires) && (es[i].ReadFails? ==> fails)
  }

  /** Over all runs in which the key may expire, or in which reads may fail. */
  ghost predicate AlwaysBounded(cfg: Config, ids: set<nat>, expires: bool, fails: bool) {
    forall es :: Allowed(es, expires, fails) ==> BoundedAfter(cfg, ids, es)
  }

  /**
   When the key may expire or reads may fail, the bounds hold over all runs
   exactly if 0, which is read then, is within them.
   */
  lemma ExpiryIff(cfg: Config, ids: set<nat>, r: nat, expires: bool, fails: bool)
    requires Ordered(cfg) && r in ids
    ensures AlwaysBounded(cfg, ids, expires, fails) <==> (expires || fails ==> Within(cfg, 0))
  {
    if expires || fails ==> Within(cfg, 0) {
      forall es | Allowed(es, expires, fails)
        ensures BoundedAfter(cfg, ids, es)
      {
        RunBounded(cfg, ids, es);
      }
    } else if expires {
      var es := [KeyExpires, Read(r)];
      assert es[..1] == [KeyExpires] && es[..1][..0] == [];
      assert r in Start(cfg, ids).receivers && Run(cfg, ids, []) == Start(cfg, ids);
      assert Run(cfg, ids, es[..1]) == Start(cfg, ids).(shared := None);
      assert Run(cfg, ids, es).receivers[r].local == 0;
      assert !BoundedAfter(cfg, ids, es);
    } else {
      var es := [ReadFails(r)];
      assert es[..0] == [] && r in Start(cfg, ids).receivers && Run(cfg, ids, []) == Start(cfg, ids);
      assert Run(cfg, ids, es).receivers[r].local == 0;
      assert !BoundedAfter(cfg, ids, es);
    }
  }
}
