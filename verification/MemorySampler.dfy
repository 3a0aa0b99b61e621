/**
 The adaptive sample value of pkg/componment/trace/memory_sampler.go: a window of
 memory reports per node, a counter of over-rate checks, and a control value
 that every receiver reads from and writes to a shared cache.
 */
module MemorySampler {

  import opened MachineInts

  // ---------------------------------------------------------------- one node

  datatype Report = Report(timestamp: int, memory: int, memoryLimit: int, cacheSecond: int)

  predicate InRange(r: Report) {
    && -TWO_63 <= r.timestamp < TWO_63 && -TWO_63 <= r.cacheSecond < TWO_63
    && 0 <= r.memory < TWO_64 && 0 <= r.memoryLimit < TWO_64
  }

  /** The last n entries of a list. */
  function Last<T>(s: seq<T>, n: nat): seq<T> {
    if |s| <= n then s else s[|s| - n..]
  }

  /** As many as there are, up to n, and nothing comes after them. */
  lemma LastSays<T>(s: seq<T>, n: nat)
    ensures |Last(s, n)| == (if |s| <= n then |s| else n)
    ensures s == s[..|s| - |Last(s, n)|] + Last(s, n)
  {
  }

  function Rate(last: Report, earlier: Report): int
    requires ToInt64(last.timestamp - earlier.timestamp) != 0
  {
    Quotient(ToInt64(ToUint64(last.memory - earlier.memory)), ToInt64(last.timestamp - earlier.timestamp))
  }

  /** No divisor is zero: the reports have times of their own, and the cache seconds are given. */
  predicate Divides(window: seq<Report>)
    requires |window| >= 2
  {
    var n := |window| - 1;
    && ToInt64(window[n].timestamp - window[n - 1].timestamp) != 0
    && ToInt64(window[n].timestamp - window[0].timestamp) != 0
    && window[n].cacheSecond != 0
  }

  /** Memory grew faster than the limit allows, since the last report or over the window. */
  predicate OverRate(window: seq<Report>)
    requires |window| >= 2 && Divides(window)
  {
    var n := |window| - 1;
    var allowed := Quotient(ToInt64(window[n].memoryLimit), window[n].cacheSecond);
    Rate(window[n], window[n - 1]) > allowed || Rate(window[n], window[0]) > allowed
  }

  /** The memory is below 80 percent of the limit, in 64-bit products. */
  predicate Relaxed(r: Report) {
    ToUint64(r.memory * 5) < ToUint64(r.memoryLimit * 4)
  }

  predicate NothingNew(window: seq<Report>, checkTime: int) {
    |window| < 2 || checkTime == window[|window| - 1].timestamp || Relaxed(window[|window| - 1])
  }

  /** While the products do not wrap this is the comparison of memory with four fifths of the limit. */
  lemma RelaxedMeans(r: Report)
    requires InRange(r) && r.memory * 5 < TWO_64 && r.memoryLimit * 4 < TWO_64
    ensures Relaxed(r) <==> (r.memory as real) < 0.8 * (r.memoryLimit as real)
  {
    assert 5.0 * (r.memory as real) == (r.memory * 5) as real;
    assert 5.0 * (0.8 * (r.memoryLimit as real)) == (r.memoryLimit * 4) as real;
  }

  /** What a check of a node says: nothing new, a crash on a zero divisor, or the limit is exceeded. */
  datatype Outcome = Skipped | DivideByZero | Exceeded(sampled: bool)

  /** What a check finds in a window, the time of the last check and the counter. */
  function Judged(window: seq<Report>, checkTime: int, count: int): Outcome {
    if NothingNew(window, checkTime) then Skipped
    else if !Divides(window) then DivideByZero
    else Exceeded(OverRate(window) && count >= 4)
  }

  /**
   Reports as they come from a healthy node: the times rise, the cache seconds
   are positive, the limit and the differences fit an int64.
   */
  ghost predicate Healthy(last: Report, earlier: Report) {
    && InRange(last) && InRange(earlier)
    && 0 < last.timestamp - earlier.timestamp < TWO_63
    && -TWO_63 <= last.memory - earlier.memory < TWO_63
    && 0 < last.cacheSecond && last.memoryLimit < TWO_63
  }

  /**
   Memory grew since the earlier report by at least one unit a second more than
   the limit divided by the cache seconds, for each second in between.
   */
  predicate GrewFast(last: Report, earlier: Report)
    requires last.cacheSecond != 0
  {
    last.memory - earlier.memory >=
    (last.memoryLimit / last.cacheSecond + 1) * (last.timestamp - earlier.timestamp)
  }

  lemma RateMeans(last: Report, earlier: Report)
    requires Healthy(last, earlier)
    ensures ToInt64(last.timestamp - earlier.timestamp) != 0
    ensures Rate(last, earlier) > Quotient(ToInt64(last.memoryLimit), last.cacheSecond) <==> GrewFast(last, earlier)
  {
    SignedDifference(last.memory, earlier.memory);
    AllowedMeans(last, earlier);
    QuotientAtLeast(last.memory - earlier.memory, last.timestamp - earlier.timestamp,
                    last.memoryLimit / last.cacheSecond + 1);
  }

  lemma AllowedMeans(last: Report, earlier: Report)
    requires Healthy(last, earlier)
    ensures ToInt64(last.timestamp - earlier.timestamp) == last.timestamp - earlier.timestamp
    ensures last.memoryLimit / last.cacheSecond >= 0
    ensures Quotient(ToInt64(last.memoryLimit), last.cacheSecond) == last.memoryLimit / last.cacheSecond
  {
    DivideBelow(last.memoryLimit, last.cacheSecond);
  }

  /**
   What over-rate means for healthy reports, without divisions of wrapped
   differences: memory grew fast since the last report or over the window.
   */
  lemma OverRateMeans(window: seq<Report>)
    requires |window| >= 2
    requires Healthy(window[|window| - 1], window[|window| - 2]) && Healthy(window[|window| - 1], window[0])
    ensures var n := |window| - 1;
      && Divides(window)
      && (OverRate(window) <==> GrewFast(window[n], window[n - 1]) || GrewFast(window[n], window[0]))
  {
    var n := |window| - 1;
    RateMeans(window[n], window[n - 1]);
    RateMeans(window[n], window[0]);
  }

  /**
   So a check of healthy reports finds nothing while the last one was seen before
   or its memory is below four fifths of the limit, else that the limit is
   exceeded; and it samples exactly if memory grew fast and four counted checks
   came before.
   */
  lemma JudgedMeans(window: seq<Report>, checkTime: int, count: int)
    requires |window| >= 2
    requires Healthy(window[|window| - 1], window[|window| - 2]) && Healthy(window[|window| - 1], window[0])
    requires window[|window| - 1].memory * 5 < TWO_64 && window[|window| - 1].memoryLimit * 4 < TWO_64
    ensures var last := window[|window| - 1];
      Judged(window, checkTime, count) ==
      if checkTime == last.timestamp || last.memory * 5 < last.memoryLimit * 4 then Skipped
      else Exceeded((GrewFast(last, window[|window| - 2]) || GrewFast(last, window[0])) && count >= 4)
  {
    OverRateMeans(window);
    NothingNewMeans(window, checkTime);
  }

  lemma NothingNewMeans(window: seq<Report>, checkTime: int)
    requires |window| >= 2 && InRange(window[|window| - 1])
    requires window[|window| - 1].memory * 5 < TWO_64 && window[|window| - 1].memoryLimit * 4 < TWO_64
    ensures var last := window[|window| - 1];
      NothingNew(window, checkTime) <==> checkTime == last.timestamp || last.memory * 5 < last.memoryLimit * 4
  {
  }

  /** What happened to the counter of a node. */
  datatype Mark = Over | Under | Reset

  /** Over-rate checks since the last reset. */
  function Overs(log: seq<Mark>): nat {
    if log == [] || log[|log| - 1].Reset? then 0
    else Overs(log[..|log| - 1]) + (if log[|log| - 1].Over? then 1 else 0)
  }

  lemma NextInFives(n: nat)
    ensures (n + 1) % 5 == if n % 5 == 4 then 0 else n % 5 + 1
  {
  }

  class NodeMemories {
    const size: nat
    var memories: seq<Report>
    var checkTime: int
    var checkCount: int
    var sampleCount: int
    ghost var received: seq<Report>
    ghost var log: seq<Mark>

    /**
     The window holds the last reports, and the counter is the number of
     over-rate checks since the last reset, counted in fives; checkCount never moves.
     */
    ghost predicate Valid()
      reads this
    {
      && memories == Last(received, size)
      && checkCount == 0 && sampleCount == Overs(log) % 5
    }

    ghost function Outlook(): Outcome
      reads this
    {
      Judged(memories, checkTime, sampleCount)
    }

    constructor (size: nat)
      ensures Valid() && this.size == size && received == [] && log == []
    {
      this.size := size;
      memories, checkTime, checkCount, sampleCount := [], 0, 0, 0;
      received, log := [], [];
    }

    method CacheMemory(metric: Report)
      requires Valid()
      modifies this`memories, this`received
      ensures Valid() && received == old(received) + [metric]
    {
      memories := memories + [metric];
      if |memories| > size {
        memories := memories[1..];
      }
      received := received + [metric];
    }

    method SetNewSampleValue() returns (r: Outcome)
      requires Valid()
      modifies this`checkTime, this`sampleCount, this`checkCount, this`log
      ensures Valid()
      ensures r == old(Outlook())
      ensures r.Exceeded? ==> Divides(memories)
      ensures r.Exceeded? ==> log == old(log) + [if OverRate(memories) then Over else Under]
      ensures r.Exceeded? ==> (r.sampled <==> OverRate(memories) && Overs(log) % 5 == 0)
      ensures !r.Exceeded? ==> log == old(log)
      ensures checkTime == if r.Skipped? then old(checkTime) else memories[|memories| - 1].timestamp
    {
      if |memories| < 2 {
        return Skipped;
      }
      var last := memories[|memories| - 1];
      if checkTime == last.timestamp || ToUint64(last.memory * 5) < ToUint64(last.memoryLimit * 4) {
        return Skipped;
      }
      checkTime := last.timestamp;
      var zero, over := Measure();
      if zero {
        return DivideByZero;
      }
      var sampled := CountCheck(over);
      return Exceeded(sampled);
    }

    /** The three divisions of a check. */
    method Measure() returns (zero: bool, over: bool)
      requires |memories| >= 2
      ensures zero <==> !Divides(memories)
      ensures !zero ==> (over <==> OverRate(memories))
    {
      var size := |memories|;
      var last := memories[size - 1];
      var pre := memories[size - 2];
      var first := memories[0];
      if ToInt64(last.timestamp - pre.timestamp) == 0 || ToInt64(last.timestamp - first.timestamp) == 0
         || last.cacheSecond == 0 {
        return true, false;
      }
      var lastMemory := Quotient(ToInt64(ToUint64(last.memory - pre.memory)), ToInt64(last.timestamp - pre.timestamp));
      var last5Memory :=
        Quotient(ToInt64(ToUint64(last.memory - first.memory)), ToInt64(last.timestamp - first.timestamp));
      var avgMemory := Quotient(ToInt64(last.memoryLimit), last.cacheSecond);
      return false, lastMemory > avgMemory || last5Memory > avgMemory;
    }

    /** The counter part of a check. */
    method CountCheck(over: bool) returns (sampled: bool)
      requires Valid()
      modifies this`sampleCount, this`checkCount, this`log
      ensures Valid() && log == old(log) + [if over then Over else Under]
      ensures sampled <==> over && Overs(log) % 5 == 0
      ensures sampled <==> over && old(sampleCount) >= 4
    {
      ghost var n := Overs(log);
      log := log + [if over then Over else Under];
      assert log[..|log| - 1] == old(log);
      NextInFives(n);
      if over {
        sampleCount := sampleCount + 1;
      }
      sampled := sampleCount >= 5;
      if sampleCount >= 5 || checkCount > 10 {
        sampleCount := 0;
        checkCount := 0;
      }
    }

    method ResetCheckCount()
      requires Valid()
      modifies this`sampleCount, this`checkCount, this`log
      ensures Valid() && log == old(log) + [Reset] && sampleCount == 0
    {
      sampleCount := 0;
      checkCount := 0;
      log := log + [Reset];
    }
  }

  // ---------------------------------------------------------------- one check of the value

  datatype Config = Config(minSample: int, initSample: int, maxSample: int)

  ghost predicate Ordered(cfg: Config) {
    cfg.minSample <= cfg.initSample <= cfg.maxSample
  }

  /** The value after the nodes were asked, given that it was below the maximum and known. */
  function Raised(cfg: Config, value: int, exceed: bool, sampled: bool): int {
    if exceed && !sampled && value < cfg.initSample then cfg.initSample
    else if sampled && value <= cfg.maxSample then value + 1
    else value
  }

  function Lowered(cfg: Config, value: int): int {
    if value > cfg.minSample then value - 1 else value
  }

  /** The value is raised if it was known and below the maximum. */
  ghost function Asked(cfg: Config, cached: int, local: int, os: map<string, Outcome>): int {
    if cached == local && cached < cfg.maxSample then Raised(cfg, cached, AnyExceeded(os), AnySampled(os)) else cached
  }

  /** The value after one check: raised, then lowered if it is no longer fresh. */
  ghost function Decided(cfg: Config, cached: int, local: int, os: map<string, Outcome>,
                         time: int, now: int, period: int): int
  {
    var value := Asked(cfg, cached, local, os);
    var freshUntil := if value != cached then now + period else time;
    if now > freshUntil then Lowered(cfg, value) else value
  }

  /**
   How one check moves the value, in terms of what the nodes said. A value that
   the cache has from elsewhere is taken over; one at the maximum stays. Below
   it, a sampled node raises the value by one; an exceeded limit with nothing
   sampled lifts it to the initial value at once. Only a value that was not raised
   and is no longer fresh goes down, by one, and not below the minimum.
   */
  lemma DecidedSays(cfg: Config, cached: int, local: int, os: map<string, Outcome>, time: int, now: int, period: int)
    requires Ordered(cfg) && cfg.minSample <= cached <= cfg.maxSample && 0 <= period
    ensures var value := Decided(cfg, cached, local, os, time, now, period);
      var asked := cached == local && cached < cfg.maxSample;
      var sampled := exists ip :: ip in os && os[ip] == Exceeded(true);
      var exceeded := exists ip :: ip in os && os[ip].Exceeded?;
      if asked && sampled then value == cached + 1
      else if asked && exceeded && cached < cfg.initSample then value == cfg.initSample
      else if now > time && cached > cfg.minSample then value == cached - 1
      else value == cached
  {
    assert AnySampled(os) <==> exists ip :: ip in os && os[ip] == Exceeded(true) by {
      if ip :| ip in os && os[ip].Exceeded? && os[ip].sampled {
        assert os[ip] == Exceeded(true);
      }
    }
  }

  ghost predicate AnyCrash(os: map<string, Outcome>) {
    exists ip :: ip in os && os[ip].DivideByZero?
  }

  ghost predicate AnyExceeded(os: map<string, Outcome>) {
    exists ip :: ip in os && os[ip].Exceeded?
  }

  ghost predicate AnySampled(os: map<string, Outcome>) {
    exists ip :: ip in os && os[ip].Exceeded? && os[ip].sampled
  }

  /** The answers of the nodes outside todo are collected, and none of them crashed. */
  ghost predicate Asking(os: map<string, Outcome>, todo: set<string>, exceed: bool, sampled: bool) {
    && (forall ip :: ip in os && ip !in todo ==> !os[ip].DivideByZero?)
    && (exceed <==> exists ip :: ip in os && ip !in todo && os[ip].Exceeded?)
    && (sampled <==> exists ip :: ip in os && ip !in todo && os[ip].Exceeded? && os[ip].sampled)
  }

  lemma AskedOne(os: map<string, Outcome>, todo: set<string>, exceed: bool, sampled: bool, ip: string)
    requires ip in todo && ip in os && !os[ip].DivideByZero? && Asking(os, todo, exceed, sampled)
    ensures Asking(os, todo - {ip}, exceed || os[ip].Exceeded?, sampled || (os[ip].Exceeded? && os[ip].sampled))
  {
    assert forall x :: x in os && x !in todo ==> x !in todo - {ip};
    assert forall x :: x in os && x !in todo - {ip} ==> x !in todo || x == ip;
  }

  /** When all are asked, the answers are those of the whole map. */
  lemma AskedAll(os: map<string, Outcome>, exceed: bool, sampled: bool)
    requires Asking(os, {}, exceed, sampled)
    ensures !AnyCrash(os) && exceed == AnyExceeded(os) && sampled == AnySampled(os)
  {
  }

  /** The local cache: a value and the time until which it is fresh. */
  class SampleCache {
    var sampleValue: int
    var sampleTime: int

    constructor (value: int, expirePeriod: int, now: int)
      ensures sampleValue == value && sampleTime == now + expirePeriod
    {
      sampleValue, sampleTime := value, now + expirePeriod;
    }

    method SetSampleValue(value: int, expirePeriod: int, now: int)
      modifies this
      ensures sampleValue == value && sampleTime == now + expirePeriod
    {
      sampleValue, sampleTime := value, now + expirePeriod;
    }

    method LockAndCheckSampleTime(now: int) returns (due: bool)
      ensures due <==> now > sampleTime
    {
      due := now > sampleTime;
    }
  }

  /** Every node has an object of its own, in a valid state, with a window of five reports. */
  ghost predicate NodesValid(nodes: map<string, NodeMemories>)
    reads nodes.Values
  {
    && (forall a, b :: a in nodes && b in nodes && a != b ==> nodes[a] != nodes[b])
    && (forall a :: a in nodes ==> nodes[a].Valid() && nodes[a].size == 5)
  }

  ghost function OutlooksOf(nodes: map<string, NodeMemories>): map<string, Outcome>
    reads nodes.Values
  {
    map ip | ip in nodes :: nodes[ip].Outlook()
  }

  class Sampler {
    const cfg: Config
    const resetPeriod: int
    const cache: SampleCache
    var sampleValue: int
    var nodeMemories: map<string, NodeMemories>

    ghost predicate Valid()
      reads this, cache, nodeMemories.Values
    {
      && Ordered(cfg) && NodesValid(nodeMemories)
      && cfg.minSample <= sampleValue <= cfg.maxSample
      && cfg.minSample <= cache.sampleValue <= cfg.maxSample
    }

    constructor (cfg: Config, resetPeriod: int, now: int)
      requires Ordered(cfg)
      ensures Valid() && this.cfg == cfg && fresh(cache)
      ensures sampleValue == cache.sampleValue == cfg.minSample && nodeMemories == map[]
    {
      this.cfg, this.resetPeriod := cfg, resetPeriod;
      cache := new SampleCache(cfg.minSample, resetPeriod, now);
      sampleValue := cfg.minSample;
      nodeMemories := map[];
    }

    method GetSampleValue(nodeIp: string, metric: Report) returns (value: int)
      requires Valid()
      modifies this`nodeMemories, nodeMemories.Values
      ensures Valid() && value == sampleValue && nodeIp in nodeMemories
      ensures if nodeIp in old(nodeMemories)
        then
          && nodeMemories == old(nodeMemories)
          && nodeMemories[nodeIp].received == old(nodeMemories[nodeIp].received) + [metric]
        else
          && nodeMemories == old(nodeMemories)[nodeIp := nodeMemories[nodeIp]]
          && nodeMemories[nodeIp].received == [metric]
    {
      var node;
      if nodeIp in nodeMemories {
        node := nodeMemories[nodeIp];
      } else {
        node := new NodeMemories(5);
        nodeMemories := nodeMemories[nodeIp := node];
      }
      node.CacheMemory(metric);
      return sampleValue;
    }

    /** Every node is checked, in any order; a zero divisor ends the process. */
    method CheckNodes() returns (crashed: bool, exceed: bool, sampled: bool)
      requires NodesValid(nodeMemories)
      modifies nodeMemories.Values
      ensures NodesValid(nodeMemories)
      ensures crashed <==> AnyCrash(old(OutlooksOf(nodeMemories)))
      ensures !crashed ==> exceed == AnyExceeded(old(OutlooksOf(nodeMemories)))
      ensures !crashed ==> sampled == AnySampled(old(OutlooksOf(nodeMemories)))
    {
      crashed, exceed, sampled := false, false, false;
      ghost var all := OutlooksOf(nodeMemories);
      var todo := nodeMemories.Keys;
      while todo != {}
        invariant todo <= nodeMemories.Keys == all.Keys && NodesValid(nodeMemories)
        invariant forall ip :: ip in todo ==> nodeMemories[ip].Outlook() == all[ip]
        invariant Asking(all, todo, exceed, sampled)
      {
        var ip :| ip in todo;
        var r := CheckOne(ip, todo);
        if r.DivideByZero? {
          return true, exceed, sampled;
        }
        AskedOne(all, todo, exceed, sampled, ip);
        if r.Exceeded? {
          exceed := true;
          sampled := sampled || r.sampled;
        }
        todo := todo - {ip};
      }
      AskedAll(all, exceed, sampled);
    }

    method CheckOne(ip: string, ghost todo: set<string>) returns (r: Outcome)
      requires NodesValid(nodeMemories) && ip in todo && todo <= nodeMemories.Keys
      modifies nodeMemories[ip]
      ensures NodesValid(nodeMemories) && r == old(nodeMemories[ip].Outlook())
      ensures forall a :: a in todo && a != ip ==> nodeMemories[a].Outlook() == old(nodeMemories[a].Outlook())
    {
      assert forall a :: a in todo && a != ip ==> nodeMemories[a] != nodeMemories[ip];
      r := nodeMemories[ip].SetNewSampleValue();
    }

    method ResetOne(ip: string)
      requires NodesValid(nodeMemories) && ip in nodeMemories
      modifies nodeMemories[ip]
      ensures NodesValid(nodeMemories) && nodeMemories[ip].sampleCount == 0
    {
      nodeMemories[ip].ResetCheckCount();
    }

    method ResetNodes()
      requires NodesValid(nodeMemories)
      modifies nodeMemories.Values
      ensures NodesValid(nodeMemories)
      ensures forall a :: a in nodeMemories ==> nodeMemories[a].sampleCount == 0
    {
      var todo := nodeMemories.Keys;
      while todo != {}
        invariant todo <= nodeMemories.Keys && NodesValid(nodeMemories)
        invariant forall a :: a in nodeMemories && a !in todo ==> nodeMemories[a].sampleCount == 0
      {
        var ip :| ip in todo;
        ResetOne(ip);
        todo := todo - {ip};
      }
    }

    /** The first half of a check: take over a changed value, or ask the nodes and raise it. */
    method Adjust(now: int) returns (crashed: bool, changed: bool, value: int)
      requires Valid()
      modifies this`sampleValue, cache, nodeMemories.Values
      ensures Valid() && cfg.minSample <= value <= cfg.maxSample
      ensures !crashed ==> sampleValue == cache.sampleValue == value && (value != old(sampleValue) ==> changed)
      ensures !crashed ==> value == Asked(cfg, old(cache.sampleValue), old(sampleValue), old(OutlooksOf(nodeMemories)))
      ensures !crashed && value != old(cache.sampleValue) ==> cache.sampleTime == now + resetPeriod
      ensures !crashed && value == old(cache.sampleValue) ==> cache.sampleTime == old(cache.sampleTime)
      ensures crashed ==> AnyCrash(old(OutlooksOf(nodeMemories)))
    {
      crashed, changed := false, false;
      value := cache.sampleValue;
      if value != sampleValue {
        changed := true;
        sampleValue := value;
      } else if value < cfg.maxSample {
        crashed, changed, value := AskNodes(now);
      }
    }

    method AskNodes(now: int) returns (crashed: bool, changed: bool, value: int)
      requires Valid() && sampleValue == cache.sampleValue < cfg.maxSample
      modifies this`sampleValue, cache, nodeMemories.Values
      ensures Valid() && cfg.minSample <= value <= cfg.maxSample
      ensures crashed <==> AnyCrash(old(OutlooksOf(nodeMemories)))
      ensures !crashed ==> sampleValue == cache.sampleValue == value && (changed <==> value != old(sampleValue))
      ensures !crashed ==>
        value == Raised(cfg, old(sampleValue), AnyExceeded(old(OutlooksOf(nodeMemories))),
                        AnySampled(old(OutlooksOf(nodeMemories))))
      ensures !crashed ==> cache.sampleTime == if changed then now + resetPeriod else old(cache.sampleTime)
    {
      value := sampleValue;
      var exceedLimit;
      crashed, exceedLimit, changed := CheckNodes();
      if crashed {
        return;
      }
      if exceedLimit && !changed && value < cfg.initSample {
        value := cfg.initSample;
        changed := true;
      } else if changed && value <= cfg.maxSample {
        value := value + 1;
      }
      if changed {
        Store(value, now);
      }
    }

    /** The value goes to the receiver and to the cache. */
    method Store(value: int, now: int)
      requires Valid() && cfg.minSample <= value <= cfg.maxSample
      modifies this`sampleValue, cache
      ensures Valid() && sampleValue == cache.sampleValue == value && cache.sampleTime == now + resetPeriod
    {
      sampleValue := value;
      cache.SetSampleValue(value, resetPeriod, now);
    }

    /** The second half: a value that is no longer fresh goes down and is written again. */
    method Recover(value: int, now: int) returns (lowered: bool)
      requires Valid() && sampleValue == cache.sampleValue == value
      modifies this`sampleValue, cache
      ensures Valid() && sampleValue == cache.sampleValue
      ensures sampleValue == if now > old(cache.sampleTime) then Lowered(cfg, value) else value
      ensures lowered <==> sampleValue != value
    {
      lowered := false;
      var due := cache.LockAndCheckSampleTime(now);
      if due {
        var next := value;
        if next > cfg.minSample {
          next := next - 1;
          lowered := true;
        }
        Store(next, now);
      }
    }

    /**
     One check. With this one receiver on the cache its own value is the cached
     one afterwards, the value stays within its bounds, and every change starts
     the counters of the nodes again.
     */
    method CheckSampleValue(now: int) returns (crashed: bool, changed: bool)
      requires Valid()
      modifies this`sampleValue, cache, nodeMemories.Values
      ensures Valid()
      ensures !crashed ==> sampleValue == cache.sampleValue
      ensures !crashed && changed ==> forall a :: a in nodeMemories ==> nodeMemories[a].sampleCount == 0
      ensures !crashed ==>
        sampleValue == Decided(cfg, old(cache.sampleValue), old(sampleValue), old(OutlooksOf(nodeMemories)),
                               old(cache.sampleTime), now, resetPeriod)
      ensures crashed ==> AnyCrash(old(OutlooksOf(nodeMemories)))
      ensures !crashed && sampleValue != old(sampleValue) ==> changed
    {
      var value;
      crashed, changed, value := Adjust(now);
      if crashed {
        return;
      }
      var lowered := Recover(value, now);
      changed := changed || lowered;
      if changed {
        ResetNodes();
      }
    }
  }
}
