/**
 The report tasks of pkg/analyzer/analyzer.go: a todo queue, a retry queue
 ordered by check time, workers served in turn, and bounded retries. The
 outcome of building a report and the clock are inputs.
 */
module TaskScheduler {

  /** The value of one traceTask; the traces it carries are named by its id. */
  datatype Task = Task(id: nat, ignoreRetry: bool, retryTimes: nat, checkTime: int)

  /** What buildReport returned. */
  datatype Built = Success | RetryableError | FatalError

  datatype Verdict = Reported | Retrying | Dropped

  predicate Due(t: Task, checkTime: int) {
    t.checkTime <= checkTime
  }

  /** The fate of a task after one attempt. */
  function Judge(limit: int, t: Task, built: Built): Verdict {
    if built.Success? then Reported
    else if built.RetryableError? && !t.ignoreRetry && t.retryTimes < limit then Retrying
    else Dropped
  }

  /** How many tasks at the head are due; the loop stops at the first that is not. */
  function DueCount(retry: seq<Task>, checkTime: int): (n: nat)
    ensures n <= |retry|
  {
    if retry == [] || !Due(retry[0], checkTime) then 0 else 1 + DueCount(retry[1..], checkTime)
  }

  function Filter(ts: seq<Task>, checkTime: int, due: bool): seq<Task> {
    if ts == [] then []
    else (if Due(ts[0], checkTime) == due then [ts[0]] else []) + Filter(ts[1..], checkTime, due)
  }

  /** No due task stands behind one that is not. */
  ghost predicate DueFirst(ts: seq<Task>, checkTime: int) {
    forall i, j :: 0 <= i < j < |ts| && Due(ts[j], checkTime) ==> Due(ts[i], checkTime)
  }

  ghost predicate Sorted(ts: seq<Task>) {
    forall i, j :: 0 <= i < j < |ts| ==> ts[i].checkTime <= ts[j].checkTime
  }

  lemma {:induction false} FilterNone(ts: seq<Task>, checkTime: int, due: bool)
    requires forall i :: 0 <= i < |ts| ==> Due(ts[i], checkTime) != due
    ensures Filter(ts, checkTime, due) == [] && Filter(ts, checkTime, !due) == ts
  {
    if ts != [] {
      FilterNone(ts[1..], checkTime, due);
    }
  }

  /**
   The head that the prefix loop takes is exactly the due tasks, and what it
   leaves exactly the others, both in order, if and only if no due task stands
   behind one that is not.
   */
  lemma {:induction false} PrefixTakesDueIff(ts: seq<Task>, checkTime: int)
    ensures var n := DueCount(ts, checkTime);
      (ts[..n] == Filter(ts, checkTime, true) && ts[n..] == Filter(ts, checkTime, false)) <==> DueFirst(ts, checkTime)
  {
    if ts != [] {
      if Due(ts[0], checkTime) {
        PrefixTakesDueIff(ts[1..], checkTime);
        DueFirstTail(ts, checkTime);
        HeadAndPrefix(ts, DueCount(ts, checkTime), Filter(ts[1..], checkTime, true));
      } else {
        NoneDueFirst(ts, checkTime);
      }
    }
  }

  lemma HeadAndPrefix(ts: seq<Task>, n: nat, rest: seq<Task>)
    requires 0 < n <= |ts|
    ensures ts[..n] == [ts[0]] + rest <==> ts[1..][..n - 1] == rest
    ensures ts[n..] == ts[1..][n - 1..]
  {
    assert ts[..n] == [ts[0]] + ts[1..][..n - 1];
    if ts[..n] == [ts[0]] + rest {
      assert ts[1..][..n - 1] == ts[..n][1..] == ([ts[0]] + rest)[1..] == rest;
    }
  }

  lemma DueFirstTail(ts: seq<Task>, checkTime: int)
    requires ts != [] && Due(ts[0], checkTime)
    ensures DueFirst(ts, checkTime) <==> DueFirst(ts[1..], checkTime)
  {
    var rest := ts[1..];
    assert forall i :: 0 <= i < |rest| ==> rest[i] == ts[i + 1];
    assert forall i :: 0 < i < |ts| ==> ts[i] == rest[i - 1];
  }

  lemma NoneDueFirst(ts: seq<Task>, checkTime: int)
    requires ts != [] && !Due(ts[0], checkTime)
    ensures DueFirst(ts, checkTime) <==> Filter(ts, checkTime, true) == []
    ensures DueFirst(ts, checkTime) ==> Filter(ts, checkTime, false) == ts
  {
    if DueFirst(ts, checkTime) {
      FilterNone(ts, checkTime, true);
    } else {
      var i, j :| 0 <= i < j < |ts| && Due(ts[j], checkTime) && !Due(ts[i], checkTime);
      FilterHas(ts, checkTime, j);
    }
  }

  lemma {:induction false} FilterHas(ts: seq<Task>, checkTime: int, j: nat)
    requires j < |ts| && Due(ts[j], checkTime)
    ensures Filter(ts, checkTime, true) != []
  {
    if !Due(ts[0], checkTime) {
      FilterHas(ts[1..], checkTime, j - 1);
    }
  }

  // ---------------------------------------------------------------- the objects

  class TraceTask {
    const id: nat
    const ignoreRetry: bool
    var retryTimes: nat
    var checkTime: int

    constructor (id: nat, ignoreRetry: bool)
      ensures View() == Task(id, ignoreRetry, 0, 0)
    {
      this.id, this.ignoreRetry := id, ignoreRetry;
      retryTimes, checkTime := 0, 0;
    }

    ghost function View(): Task
      reads this
    {
      Task(id, ignoreRetry, retryTimes, checkTime)
    }
  }

  ghost function Views(ts: seq<TraceTask>): seq<Task>
    reads ts
  {
    seq(|ts|, i requires 0 <= i < |ts| reads ts => ts[i].View())
  }

  class TaskPool {
    var todoTasks: seq<TraceTask>
    var retryTasks: seq<TraceTask>
    const checkPeriod: int

    constructor (checkPeriod: int)
      ensures todoTasks == [] && retryTasks == []
      ensures this.checkPeriod == if checkPeriod == 0 then 5 else checkPeriod
    {
      this.checkPeriod := if checkPeriod == 0 then 5 else checkPeriod;
      todoTasks, retryTasks := [], [];
    }

    method AddTask(task: TraceTask)
      modifies this
      ensures todoTasks == old(todoTasks) + [task] && retryTasks == old(retryTasks)
    {
      todoTasks := todoTasks + [task];
    }

    /** The task is in flight, so it stands in neither queue. */
    method RetryTask(task: TraceTask, now: int)
      requires task !in todoTasks && task !in retryTasks
      modifies this, task
      ensures todoTasks == old(todoTasks) && retryTasks == old(retryTasks) + [task]
      ensures task.View() == Task(task.id, task.ignoreRetry, old(task.retryTimes) + 1, now + checkPeriod)
      ensures Views(todoTasks) == old(Views(todoTasks))
      ensures Views(retryTasks) == old(Views(retryTasks)) + [task.View()]
    {
      task.retryTimes := task.retryTimes + 1;
      task.checkTime := now + checkPeriod;
      retryTasks := retryTasks + [task];
    }

    /** Everything to do, then the due head of the retry queue. */
    method GetToProcessTasks(checkTime: int) returns (tasks: seq<TraceTask>)
      modifies this
      ensures todoTasks == []
      ensures |tasks| == |old(todoTasks)| + DueCount(old(Views(retryTasks)), checkTime)
      ensures tasks + retryTasks == old(todoTasks) + old(retryTasks)
    {
      tasks := [];
      var size := |todoTasks|;
      if size > 0 {
        tasks := tasks + todoTasks;
        todoTasks := [];
      }
      if |retryTasks| > 0 {
        var index := 0;
        ghost var views := Views(retryTasks);
        for i := 0 to |retryTasks|
          invariant index == i
          invariant DueCount(views, checkTime) == i + DueCount(views[i..], checkTime)
        {
          if retryTasks[i].checkTime <= checkTime {
            index := i + 1;
          } else {
            break;
          }
          assert views[i..][1..] == views[i + 1..];
        }
        if index > 0 {
          tasks := tasks + retryTasks[0..index];
          retryTasks := retryTasks[index..];
        }
      }
    }
  }

  class ReportAnalyzer {
    const taskPool: TaskPool
    const retryTimes: int
    const threadCount: nat
    var taskIndex: nat
    /** The workers that got a task, in the order of the sends. */
    ghost var sent: seq<nat>

    ghost predicate Valid()
      reads this
    {
      threadCount > 0 && Balanced(sent, threadCount, taskIndex)
    }

    constructor (pool: TaskPool, retryTimes: int, threadCount: nat)
      requires threadCount > 0
      ensures Valid() && taskPool == pool && this.retryTimes == retryTimes && sent == []
    {
      taskPool, this.retryTimes, this.threadCount := pool, retryTimes, threadCount;
      taskIndex, sent := 0, [];
      new;
      StartsBalanced(threadCount);
    }

    /** One attempt: the task goes back to the retry queue or is over. */
    method ProcessTask(task: TraceTask, retry: bool, err: bool, now: int) returns (verdict: Verdict)
      requires task !in taskPool.todoTasks && task !in taskPool.retryTasks
      modifies taskPool, task
      ensures var built := if !err then Success else if retry then RetryableError else FatalError;
        verdict == Judge(retryTimes, old(task.View()), built)
      ensures taskPool.todoTasks == old(taskPool.todoTasks)
      ensures taskPool.retryTasks == old(taskPool.retryTasks) + (if verdict.Retrying? then [task] else [])
      ensures task.View() == if verdict.Retrying?
        then Task(task.id, task.ignoreRetry, old(task.retryTimes) + 1, now + taskPool.checkPeriod)
        else old(task.View())
    {
      verdict := Reported;
      if err {
        if retry {
          if !task.ignoreRetry && task.retryTimes < retryTimes {
            taskPool.RetryTask(task, now);
            verdict := Retrying;
          } else {
            verdict := Dropped;
          }
        } else {
          verdict := Dropped;
        }
      }
    }

    /** The sends of one tick. */
    method Dispatch(tasks: seq<TraceTask>)
      requires Valid()
      modifies this
      ensures Valid() && |sent| == |old(sent)| + |tasks| && old(sent) <= sent
    {
      for i := 0 to |tasks|
        invariant Valid() && |sent| == |old(sent)| + i && old(sent) <= sent
      {
        NextBalanced(sent, threadCount, taskIndex);
        sent := sent + [taskIndex];
        if taskIndex == threadCount - 1 {
          taskIndex := 0;
        } else {
          taskIndex := taskIndex + 1;
        }
      }
    }
  }

  // ---------------------------------------------------------------- round robin

  function Share(sent: seq<nat>, worker: nat): nat {
    if sent == [] then 0 else Share(sent[..|sent| - 1], worker) + (if sent[|sent| - 1] == worker then 1 else 0)
  }

  /** After some full rounds the workers below the index are one task ahead. */
  ghost predicate Balanced(sent: seq<nat>, threads: nat, index: nat) {
    index < threads && exists rounds: nat :: EvenRounds(sent, threads, index, rounds)
  }

  ghost predicate EvenRounds(sent: seq<nat>, threads: nat, index: nat, rounds: nat) {
    forall w: nat :: w < threads ==> Share(sent, w) == rounds + (if w < index then 1 else 0)
  }

  lemma StartsBalanced(threads: nat)
    requires threads > 0
    ensures Balanced([], threads, 0)
  {
    assert EvenRounds([], threads, 0, 0);
  }

  lemma NextBalanced(sent: seq<nat>, threads: nat, index: nat)
    requires Balanced(sent, threads, index)
    ensures Balanced(sent + [index], threads, if index == threads - 1 then 0 else index + 1)
  {
    var rounds: nat :| EvenRounds(sent, threads, index, rounds);
    assert (sent + [index])[..|sent|] == sent;
    assert forall w: nat :: w < threads ==> Share(sent + [index], w) == Share(sent, w) + (if w == index then 1 else 0);
    if index == threads - 1 {
      assert EvenRounds(sent + [index], threads, 0, rounds + 1);
    } else {
      assert EvenRounds(sent + [index], threads, index + 1, rounds);
    }
  }

  /** Across all ticks any two workers got task counts that differ by at most one. */
  lemma FairShares(sent: seq<nat>, threads: nat, index: nat, v: nat, w: nat)
    requires Balanced(sent, threads, index) && v < threads && w < threads
    ensures -1 <= Share(sent, v) - Share(sent, w) <= 1
  {
    var rounds: nat :| EvenRounds(sent, threads, index, rounds);
  }

  // ---------------------------------------------------------------- runs

  /**
   ignores[id] is the flag of task id; flying are the tasks handed to workers;
   log names the task of every attempt, finished the tasks that are over.
   */
  datatype System = System(
    ignores: seq<bool>,
    todo: seq<Task>,
    retry: seq<Task>,
    flying: seq<Task>,
    log: seq<nat>,
    finished: seq<(nat, Verdict)>)

  /** A tick takes checkTime; an attempt takes any flying task, an outcome and the time of its end. */
  datatype Event = AddTask(ignoreRetry: bool) | Tick(checkTime: int) | Attempt(at: nat, built: Built, now: int)

  function Step(limit: int, period: int, s: System, e: Event): System {
    match e
    case AddTask(ignore) =>
      s.(ignores := s.ignores + [ignore], todo := s.todo + [Task(|s.ignores|, ignore, 0, 0)])
    case Tick(checkTime) =>
      var n := DueCount(s.retry, checkTime);
      s.(todo := [], retry := s.retry[n..], flying := s.flying + s.todo + s.retry[..n])
    case Attempt(at, built, now) =>
      if at >= |s.flying| then s
      else
        var t := s.flying[at];
        var verdict := Judge(limit, t, built);
        s.(flying := s.flying[..at] + s.flying[at + 1..],
           log := s.log + [t.id],
           retry := if verdict.Retrying? then s.retry + [Task(t.id, t.ignoreRetry, t.retryTimes + 1, now + period)]
                    else s.retry,
           finished := if verdict.Retrying? then s.finished else s.finished + [(t.id, verdict)])
  }

  const START := System([], [], [], [], [], [])

  function Run(limit: int, period: int, es: seq<Event>): System {
    if es == [] then START
    else Step(limit, period, Run(limit, period, es[..|es| - 1]), es[|es| - 1])
  }

  // ---------------------------------------------------------------- conservation

  function Count(ts: seq<Task>, id: nat): nat {
    if ts == [] then 0 else (if ts[0].id == id then 1 else 0) + Count(ts[1..], id)
  }

  lemma {:induction false} CountConcat(a: seq<Task>, b: seq<Task>, id: nat)
    ensures Count(a + b, id) == Count(a, id) + Count(b, id)
  {
    if a == [] {
      assert a + b == b;
    } else {
      assert (a + b)[1..] == a[1..] + b;
      CountConcat(a[1..], b, id);
    }
  }

  lemma CountSplit(ts: seq<Task>, at: nat, id: nat)
    requires at < |ts|
    ensures Count(ts, id) == Count(ts[..at] + ts[at + 1..], id) + (if ts[at].id == id then 1 else 0)
  {
    assert ts == ts[..at] + ([ts[at]] + ts[at + 1..]);
    CountConcat(ts[..at], [ts[at]] + ts[at + 1..], id);
    CountConcat([ts[at]], ts[at + 1..], id);
    CountConcat(ts[..at], ts[at + 1..], id);
  }

  function CountOver(finished: seq<(nat, Verdict)>, id: nat): nat {
    if finished == [] then 0
    else CountOver(finished[..|finished| - 1], id) + (if finished[|finished| - 1].0 == id then 1 else 0)
  }

  /** In how many places the task is: waiting, waiting for a retry, in flight, over. */
  function Places(s: System, id: nat): nat {
    Count(s.todo, id) + Count(s.retry, id) + Count(s.flying, id) + CountOver(s.finished, id)
  }

  /** Every added task is at each step in exactly one place, and nothing else is anywhere. */
  lemma {:induction false} OnePlace(limit: int, period: int, es: seq<Event>, id: nat)
    ensures var s := Run(limit, period, es);
      Places(s, id) == if id < |s.ignores| then 1 else 0
  {
    if es != [] {
      var s := Run(limit, period, es[..|es| - 1]);
      OnePlace(limit, period, es[..|es| - 1], id);
      match es[|es| - 1]
      case AddTask(ignore) => CountConcat(s.todo, [Task(|s.ignores|, ignore, 0, 0)], id);
      case Tick(checkTime) => TickPlaces(limit, period, s, checkTime, id);
      case Attempt(at, built, now) => AttemptPlaces(limit, period, s, at, built, now, id);
    }
  }

  lemma TickPlaces(limit: int, period: int, s: System, checkTime: int, id: nat)
    ensures Places(Step(limit, period, s, Tick(checkTime)), id) == Places(s, id)
  {
    var n := DueCount(s.retry, checkTime);
    CountConcat(s.flying, s.todo, id);
    CountConcat(s.flying + s.todo, s.retry[..n], id);
    CountConcat(s.retry[..n], s.retry[n..], id);
    assert s.retry[..n] + s.retry[n..] == s.retry;
  }

  lemma AttemptPlaces(limit: int, period: int, s: System, at: nat, built: Built, now: int, id: nat)
    ensures Places(Step(limit, period, s, Attempt(at, built, now)), id) == Places(s, id)
  {
    if at < |s.flying| {
      var t := s.flying[at];
      CountSplit(s.flying, at, id);
      CountConcat(s.retry, [Task(t.id, t.ignoreRetry, t.retryTimes + 1, now + period)], id);
      var f := s.finished + [(t.id, Judge(limit, t, built))];
      assert f[..|s.finished|] == s.finished;
    }
  }

  // ---------------------------------------------------------------- bounded attempts

  function Attempts(log: seq<nat>, id: nat): nat {
    if log == [] then 0 else Attempts(log[..|log| - 1], id) + (if log[|log| - 1] == id then 1 else 0)
  }

  /** The attempts a task may use: one, or one and retryTimes retries. */
  function Budget(limit: int, ignoreRetry: bool): nat {
    if ignoreRetry || limit < 0 then 1 else limit + 1
  }

  ghost predicate TaskOk(limit: int, s: System, t: Task) {
    && t.id < |s.ignores| && t.ignoreRetry == s.ignores[t.id]
    && t.retryTimes == Attempts(s.log, t.id) < Budget(limit, t.ignoreRetry)
  }

  ghost predicate FinishedOk(limit: int, s: System, f: (nat, Verdict)) {
    f.0 < |s.ignores| && !f.1.Retrying? && 1 <= Attempts(s.log, f.0) <= Budget(limit, s.ignores[f.0])
  }

  ghost predicate Counted(limit: int, s: System) {
    && (forall t :: t in s.todo ==> TaskOk(limit, s, t))
    && (forall t :: t in s.retry ==> TaskOk(limit, s, t))
    && (forall t :: t in s.flying ==> TaskOk(limit, s, t))
    && (forall f :: f in s.finished ==> FinishedOk(limit, s, f))
  }

  lemma {:induction false} CountMember(ts: seq<Task>, t: Task)
    requires t in ts
    ensures Count(ts, t.id) >= 1
  {
    if ts[0] != t {
      CountMember(ts[1..], t);
    }
  }

  lemma {:induction false} OverMember(fs: seq<(nat, Verdict)>, f: (nat, Verdict))
    requires f in fs
    ensures CountOver(fs, f.0) >= 1
  {
    if fs[|fs| - 1] != f {
      assert f in fs[..|fs| - 1];
      OverMember(fs[..|fs| - 1], f);
    }
  }

  /** While one task is in flight, no other entry of the system carries its id. */
  lemma NoOther(s: System, at: nat)
    requires at < |s.flying| && Places(s, s.flying[at].id) == 1
    ensures var id := s.flying[at].id;
      && (forall t :: t in s.todo || t in s.retry ==> t.id != id)
      && (forall t :: t in s.flying[..at] + s.flying[at + 1..] ==> t.id != id)
      && (forall f :: f in s.finished ==> f.0 != id)
  {
    var id := s.flying[at].id;
    var others := s.flying[..at] + s.flying[at + 1..];
    CountSplit(s.flying, at, id);
    forall t | t in s.todo
      ensures t.id != id
    {
      CountMember(s.todo, t);
    }
    forall t | t in s.retry
      ensures t.id != id
    {
      CountMember(s.retry, t);
    }
    forall t | t in others
      ensures t.id != id
    {
      CountMember(others, t);
    }
    forall f | f in s.finished
      ensures f.0 != id
    {
      OverMember(s.finished, f);
    }
  }

  lemma AttemptCounted(limit: int, period: int, s: System, at: nat, built: Built, now: int)
    requires Counted(limit, s) && at < |s.flying| && Places(s, s.flying[at].id) == 1
    ensures Counted(limit, Step(limit, period, s, Attempt(at, built, now)))
  {
    var t := s.flying[at];
    var n := Step(limit, period, s, Attempt(at, built, now));
    NoOther(s, at);
    assert t in s.flying && TaskOk(limit, s, t);
    assert n.log[..|s.log|] == s.log;
    assert forall id :: Attempts(n.log, id) == Attempts(s.log, id) + (if id == t.id then 1 else 0);
    forall u | u in n.todo || u in n.flying || u in s.retry
      ensures TaskOk(limit, n, u)
    {
      assert u in n.flying ==> u in s.flying;
      assert TaskOk(limit, s, u);
    }
    forall u | u in n.retry
      ensures TaskOk(limit, n, u)
    {
      if u !in s.retry {
        assert Judge(limit, t, built).Retrying?;
      }
    }
    forall f | f in n.finished
      ensures FinishedOk(limit, n, f)
    {
      if f in s.finished {
        assert FinishedOk(limit, s, f);
      }
    }
  }

  lemma {:induction false} RunCounted(limit: int, period: int, es: seq<Event>)
    ensures Counted(limit, Run(limit, period, es))
  {
    if es != [] {
      var s := Run(limit, period, es[..|es| - 1]);
      var n := Run(limit, period, es);
      RunCounted(limit, period, es[..|es| - 1]);
      match es[|es| - 1]
      case AddTask(ignore) =>
        FreshUnused(limit, period, es[..|es| - 1], |s.ignores|);
        assert forall u :: TaskOk(limit, s, u) ==> TaskOk(limit, n, u);
        assert forall f :: FinishedOk(limit, s, f) ==> FinishedOk(limit, n, f);
      case Tick(checkTime) =>
        assert forall u :: TaskOk(limit, s, u) ==> TaskOk(limit, n, u);
        assert forall f :: FinishedOk(limit, s, f) ==> FinishedOk(limit, n, f);
      case Attempt(at, built, now) =>
        if at < |s.flying| {
          OnePlace(limit, period, es[..|es| - 1], s.flying[at].id);
          assert TaskOk(limit, s, s.flying[at]);
          AttemptCounted(limit, period, s, at, built, now);
        }
    }
  }

  lemma {:induction false} FreshUnused(limit: int, period: int, es: seq<Event>, id: nat)
    requires id >= |Run(limit, period, es).ignores|
    ensures Attempts(Run(limit, period, es).log, id) == 0
  {
    if es != [] {
      var s := Run(limit, period, es[..|es| - 1]);
      FreshUnused(limit, period, es[..|es| - 1], id);
      match es[|es| - 1]
      case Attempt(at, built, now) =>
        if at < |s.flying| {
          RunCounted(limit, period, es[..|es| - 1]);
          assert TaskOk(limit, s, s.flying[at]);
          assert (s.log + [s.flying[at].id])[..|s.log|] == s.log;
        }
      case _ =>
    }
  }

  /**
   Whatever the outcomes and the interleaving: a task is attempted at most
   retryTimes + 1 times, once with ignoreRetry; and it is over exactly when it
   stands in no queue, with one verdict, a report or a drop.
   */
  lemma AttemptsBounded(limit: int, period: int, es: seq<Event>, id: nat)
    requires id < |Run(limit, period, es).ignores|
    ensures var s := Run(limit, period, es);
      && Attempts(s.log, id) <= Budget(limit, s.ignores[id])
      && (Count(s.todo, id) + Count(s.retry, id) + Count(s.flying, id) == 0 <==> CountOver(s.finished, id) == 1)
      && forall f :: f in s.finished ==> f.1.Reported? || f.1.Dropped?
  {
    var s := Run(limit, period, es);
    OnePlace(limit, period, es, id);
    RunCounted(limit, period, es);
    assert forall f :: f in s.finished ==> FinishedOk(limit, s, f);
    if Count(s.todo, id) > 0 {
      var t := CountWitness(s.todo, id);
      assert TaskOk(limit, s, t);
    } else if Count(s.retry, id) > 0 {
      var t := CountWitness(s.retry, id);
      assert TaskOk(limit, s, t);
    } else if Count(s.flying, id) > 0 {
      var t := CountWitness(s.flying, id);
      assert TaskOk(limit, s, t);
    } else {
      var f := OverWitness(s.finished, id);
      assert FinishedOk(limit, s, f);
    }
  }

  lemma {:induction false} CountWitness(ts: seq<Task>, id: nat) returns (t: Task)
    requires Count(ts, id) > 0
    ensures t in ts && t.id == id
  {
    if ts[0].id == id {
      t := ts[0];
    } else {
      t := CountWitness(ts[1..], id);
    }
  }

  lemma {:induction false} OverWitness(fs: seq<(nat, Verdict)>, id: nat) returns (f: (nat, Verdict))
    requires CountOver(fs, id) > 0
    ensures f in fs && f.0 == id
  {
    if fs[|fs| - 1].0 == id {
      f := fs[|fs| - 1];
    } else {
      f := OverWitness(fs[..|fs| - 1], id);
    }
  }

  /** A task is given up on a retryable error only when its attempts are used up. */
  lemma DropMeansExhausted(limit: int, period: int, es: seq<Event>, at: nat, now: int)
    requires at < |Run(limit, period, es).flying|
    ensures var t := Run(limit, period, es).flying[at];
      var n := Run(limit, period, es + [Attempt(at, RetryableError, now)]);
      (t.id, Dropped) in n.finished <==> Attempts(n.log, t.id) == Budget(limit, t.ignoreRetry)
  {
    var s, e := Run(limit, period, es), Attempt(at, RetryableError, now);
    var id := s.flying[at].id;
    RunCounted(limit, period, es);
    OnePlace(limit, period, es, id);
    RunSnoc(limit, period, es, e);
    assert TaskOk(limit, s, s.flying[at]);
    AttemptDecides(limit, period, s, at, RetryableError, now);
  }

  // ---------------------------------------------------------------- what the last attempt decides

  /** The i-th event is an attempt of the task. */
  predicate Attempted(limit: int, period: int, es: seq<Event>, i: nat, id: nat)
    requires i < |es|
  {
    var flying := Run(limit, period, es[..i]).flying;
    es[i].Attempt? && es[i].at < |flying| && flying[es[i].at].id == id
  }

  function LastAttempt(limit: int, period: int, es: seq<Event>, id: nat): (m: int)
    ensures -1 <= m < |es|
    ensures m >= 0 ==> es[m].Attempt?
  {
    if es == [] then -1
    else if Attempted(limit, period, es, |es| - 1, id) then |es| - 1
    else LastAttempt(limit, period, es[..|es| - 1], id)
  }

  /** Where a task stands after its last attempt, by the outcome and the attempts it has used. */
  ghost predicate Decided(limit: int, period: int, s: System, id: nat, built: Built, now: int)
    requires id < |s.ignores|
  {
    && ((id, Reported) in s.finished <==> built.Success?)
    && ((id, Dropped) in s.finished <==>
         built.FatalError? || (built.RetryableError? && Attempts(s.log, id) == Budget(limit, s.ignores[id])))
    && (forall t :: t in s.retry && t.id == id ==> built.RetryableError? && t.checkTime == now + period)
  }

  ghost predicate Untried(s: System, id: nat) {
    && (forall f :: f in s.finished ==> f.0 != id)
    && (forall t :: t in s.retry ==> t.id != id)
  }

  lemma AttemptDecides(limit: int, period: int, s: System, at: nat, built: Built, now: int)
    requires Counted(limit, s) && at < |s.flying| && Places(s, s.flying[at].id) == 1
    ensures s.flying[at].id < |s.ignores|
    ensures Decided(limit, period, Step(limit, period, s, Attempt(at, built, now)), s.flying[at].id, built, now)
  {
    var t := s.flying[at];
    NoOther(s, at);
    assert t in s.flying && TaskOk(limit, s, t);
    assert (s.log + [t.id])[..|s.log|] == s.log;
  }

  /** An event that is no attempt of the task leaves its queues, its verdict and its count alone. */
  lemma OtherDecides(limit: int, period: int, s: System, e: Event, id: nat)
    requires !(e.Attempt? && e.at < |s.flying| && s.flying[e.at].id == id)
    ensures var n := Step(limit, period, s, e);
      && (forall v :: (id, v) in n.finished <==> (id, v) in s.finished)
      && (forall t :: t in n.retry && t.id == id ==> t in s.retry)
      && Attempts(n.log, id) == Attempts(s.log, id)
      && s.ignores <= n.ignores
  {
    if e.Attempt? && e.at < |s.flying| {
      var t := s.flying[e.at];
      assert (s.log + [t.id])[..|s.log|] == s.log;
    }
  }

  /**
   Over every run: an added task has been reported if and only if its last
   attempt succeeded; dropped if and only if that was fatal, or was retryable and
   used up the budget; and while it waits for a retry its check time is one period
   after the end of that attempt.
   */
  lemma {:induction false} LastAttemptDecides(limit: int, period: int, es: seq<Event>, id: nat)
    requires id < |Run(limit, period, es).ignores|
    ensures var s, m := Run(limit, period, es), LastAttempt(limit, period, es, id);
      if m < 0 then Untried(s, id) else Decided(limit, period, s, id, es[m].built, es[m].now)
  {
    var n := |es| - 1;
    var s, e := Run(limit, period, es[..n]), es[n];
    RunCounted(limit, period, es[..n]);
    if Attempted(limit, period, es, n, id) {
      OnePlace(limit, period, es[..n], id);
      AttemptDecides(limit, period, s, e.at, e.built, e.now);
    } else {
      OtherDecides(limit, period, s, e, id);
      if id < |s.ignores| {
        LastAttemptDecides(limit, period, es[..n], id);
      } else {
        NotYetAdded(limit, period, es[..n], id);
      }
    }
  }

  lemma UnknownUntried(limit: int, s: System, id: nat)
    requires Counted(limit, s) && id >= |s.ignores|
    ensures Untried(s, id) && forall t :: t in s.flying ==> t.id != id
  {
    assert forall f :: f in s.finished ==> FinishedOk(limit, s, f);
    assert forall t :: t in s.retry || t in s.flying ==> TaskOk(limit, s, t);
  }

  lemma {:induction false} NotYetAdded(limit: int, period: int, es: seq<Event>, id: nat)
    requires id >= |Run(limit, period, es).ignores|
    ensures LastAttempt(limit, period, es, id) == -1 && Untried(Run(limit, period, es), id)
  {
    RunCounted(limit, period, es);
    UnknownUntried(limit, Run(limit, period, es), id);
    if es != [] {
      var init := es[..|es| - 1];
      NotYetAdded(limit, period, init, id);
      RunCounted(limit, period, init);
      UnknownUntried(limit, Run(limit, period, init), id);
      assert !Attempted(limit, period, es, |es| - 1, id);
    }
  }

  // ---------------------------------------------------------------- termination

  function Fuel(limit: int, ts: seq<Task>): int {
    if ts == [] then 0 else Budget(limit, ts[0].ignoreRetry) - ts[0].retryTimes + Fuel(limit, ts[1..])
  }

  function AllFuel(limit: int, s: System): int {
    Fuel(limit, s.todo) + Fuel(limit, s.retry) + Fuel(limit, s.flying)
  }

  function AllBudgets(limit: int, ignores: seq<bool>): nat {
    if ignores == [] then 0
    else AllBudgets(limit, ignores[..|ignores| - 1]) + Budget(limit, ignores[|ignores| - 1])
  }

  lemma {:induction false} FuelConcat(limit: int, a: seq<Task>, b: seq<Task>)
    ensures Fuel(limit, a + b) == Fuel(limit, a) + Fuel(limit, b)
  {
    if a == [] {
      assert a + b == b;
    } else {
      assert (a + b)[1..] == a[1..] + b;
      FuelConcat(limit, a[1..], b);
    }
  }

  lemma {:induction false} FuelCovers(limit: int, s: System, ts: seq<Task>)
    requires forall t :: t in ts ==> TaskOk(limit, s, t)
    ensures Fuel(limit, ts) >= |ts|
  {
    if ts != [] {
      assert TaskOk(limit, s, ts[0]);
      FuelCovers(limit, s, ts[1..]);
    }
  }

  /**
   A measure over all tasks: an attempt lowers it, whatever its outcome, a tick
   leaves it, a new task adds its budget; at zero every added task is over.
   */
  lemma FuelFalls(limit: int, period: int, es: seq<Event>, e: Event)
    ensures var s, n := Run(limit, period, es), Run(limit, period, es + [e]);
      && (e.Attempt? && e.at < |s.flying| ==> AllFuel(limit, n) < AllFuel(limit, s))
      && (e.Tick? ==> AllFuel(limit, n) == AllFuel(limit, s))
      && (e.AddTask? ==> AllFuel(limit, n) == AllFuel(limit, s) + Budget(limit, e.ignoreRetry))
      && (AllFuel(limit, s) == 0 <==> s.todo == s.retry == s.flying == [])
      && AllFuel(limit, s) >= 0
  {
    var s := Run(limit, period, es);
    RunSnoc(limit, period, es, e);
    RunCounted(limit, period, es);
    FuelCovers(limit, s, s.todo);
    FuelCovers(limit, s, s.retry);
    FuelCovers(limit, s, s.flying);
    match e
    case AddTask(ignore) => FuelConcat(limit, s.todo, [Task(|s.ignores|, ignore, 0, 0)]);
    case Tick(checkTime) => TickFuel(limit, period, s, checkTime);
    case Attempt(at, built, now) =>
      if at < |s.flying| {
        assert TaskOk(limit, s, s.flying[at]);
        AttemptFuel(limit, period, s, at, built, now);
      }
  }

  lemma RunSnoc(limit: int, period: int, es: seq<Event>, e: Event)
    ensures Run(limit, period, es + [e]) == Step(limit, period, Run(limit, period, es), e)
  {
    assert (es + [e])[..|es|] == es;
  }

  lemma TickFuel(limit: int, period: int, s: System, checkTime: int)
    ensures AllFuel(limit, Step(limit, period, s, Tick(checkTime))) == AllFuel(limit, s)
  {
    var n := DueCount(s.retry, checkTime);
    FuelConcat(limit, s.flying, s.todo);
    FuelConcat(limit, s.flying + s.todo, s.retry[..n]);
    FuelConcat(limit, s.retry[..n], s.retry[n..]);
    assert s.retry[..n] + s.retry[n..] == s.retry;
  }

  lemma AttemptFuel(limit: int, period: int, s: System, at: nat, built: Built, now: int)
    requires at < |s.flying| && s.flying[at].retryTimes < Budget(limit, s.flying[at].ignoreRetry)
    ensures AllFuel(limit, Step(limit, period, s, Attempt(at, built, now))) < AllFuel(limit, s)
  {
    var t := s.flying[at];
    var again := Task(t.id, t.ignoreRetry, t.retryTimes + 1, now + period);
    assert s.flying == s.flying[..at] + ([t] + s.flying[at + 1..]);
    FuelConcat(limit, s.flying[..at], [t] + s.flying[at + 1..]);
    FuelConcat(limit, s.flying[..at], s.flying[at + 1..]);
    FuelConcat(limit, s.retry, [again]);
    assert ([t] + s.flying[at + 1..])[1..] == s.flying[at + 1..];
    assert [again][1..] == [];
  }

  /** All attempts of a run together stay within the budgets of the added tasks. */
  lemma {:induction false} TotalAttempts(limit: int, period: int, es: seq<Event>)
    ensures var s := Run(limit, period, es);
      |s.log| + AllFuel(limit, s) <= AllBudgets(limit, s.ignores)
  {
    if es != [] {
      var init, e := es[..|es| - 1], es[|es| - 1];
      var s := Run(limit, period, init);
      TotalAttempts(limit, period, init);
      assert es == init + [e];
      FuelFalls(limit, period, init, e);
      if e.AddTask? {
        assert (s.ignores + [e.ignoreRetry])[..|s.ignores|] == s.ignores;
      }
    }
  }

  // ---------------------------------------------------------------- order of the retry queue

  /** The attempts end in the order of the clock. */
  ghost predicate ClockForward(es: seq<Event>) {
    forall i, j :: 0 <= i < j < |es| && es[i].Attempt? && es[j].Attempt? ==> es[i].now <= es[j].now
  }

  /**
   Under a clock that never goes back the retry queue is sorted by check time,
   so every tick hands out exactly the due tasks and keeps the rest in order.
   */
  lemma {:induction false} RetrySorted(limit: int, period: int, es: seq<Event>, bound: int)
    requires ClockForward(es)
    requires forall i :: 0 <= i < |es| && es[i].Attempt? ==> es[i].now <= bound
    ensures var retry := Run(limit, period, es).retry;
      Sorted(retry) && forall t :: t in retry ==> t.checkTime <= bound + period
  {
    if es != [] {
      var init, e := es[..|es| - 1], es[|es| - 1];
      if e.Attempt? {
        assert forall i :: 0 <= i < |init| && init[i].Attempt? ==> es[i].now <= e.now;
        RetrySorted(limit, period, init, e.now);
      } else {
        RetrySorted(limit, period, init, bound);
      }
      var retry := Run(limit, period, init).retry;
      assert forall i :: 0 <= i < |retry| ==> retry[i] in retry;
    }
  }

  lemma TickTakesDue(limit: int, period: int, es: seq<Event>, bound: int, checkTime: int)
    requires ClockForward(es)
    requires forall i :: 0 <= i < |es| && es[i].Attempt? ==> es[i].now <= bound
    ensures var s, n := Run(limit, period, es), Run(limit, period, es + [Tick(checkTime)]);
      && n.flying == s.flying + s.todo + Filter(s.retry, checkTime, true)
      && n.retry == Filter(s.retry, checkTime, false) && n.todo == []
  {
    RetrySorted(limit, period, es, bound);
    PrefixTakesDueIff(Run(limit, period, es).retry, checkTime);
    assert (es + [Tick(checkTime)])[..|es|] == es;
  }

  lemma {:induction false} FilterIn(ts: seq<Task>, checkTime: int, due: bool)
    ensures forall t :: t in Filter(ts, checkTime, due) <==> t in ts && (t.checkTime <= checkTime) == due
  {
    if ts != [] {
      FilterIn(ts[1..], checkTime, due);
      assert forall t :: t in ts <==> t == ts[0] || t in ts[1..];
    }
  }

  lemma OnlyRetrying(limit: int, period: int, es: seq<Event>, t: Task)
    requires t in Run(limit, period, es).retry
    ensures t !in Run(limit, period, es).todo && t !in Run(limit, period, es).flying
  {
    var s := Run(limit, period, es);
    OnePlace(limit, period, es, t.id);
    CountMember(s.retry, t);
    if t in s.todo {
      CountMember(s.todo, t);
    }
    if t in s.flying {
      CountMember(s.flying, t);
    }
  }

  /**
   In times of events: a task that waits for a retry is handed out by a tick
   exactly if the tick comes a period or more after the end of its last attempt.
   */
  lemma RetryHandedOutIff(limit: int, period: int, es: seq<Event>, bound: int, checkTime: int, t: Task)
    requires ClockForward(es)
    requires forall i :: 0 <= i < |es| && es[i].Attempt? ==> es[i].now <= bound
    requires t in Run(limit, period, es).retry
    ensures var n, m := Run(limit, period, es + [Tick(checkTime)]), LastAttempt(limit, period, es, t.id);
      && m >= 0
      && (t in n.flying <==> es[m].now + period <= checkTime)
      && (t in n.retry <==> checkTime < es[m].now + period)
  {
    var s := Run(limit, period, es);
    RunCounted(limit, period, es);
    assert TaskOk(limit, s, t);
    LastAttemptDecides(limit, period, es, t.id);
    OnlyRetrying(limit, period, es, t);
    TickTakesDue(limit, period, es, bound, checkTime);
    FilterIn(s.retry, checkTime, true);
    FilterIn(s.retry, checkTime, false);
  }

  /** When the clock steps back between two retries, a due task waits behind one that is not. */
  lemma ClockBackDelays(period: int)
    ensures var es := [AddTask(false), AddTask(false), Tick(0),
                       Attempt(0, RetryableError, 100), Attempt(0, RetryableError, 0)];
      var s := Run(1, period, es);
      && s.retry == [Task(0, false, 1, 100 + period), Task(1, false, 1, period)]
      && DueCount(s.retry, period) == 0 && Due(s.retry[1], period)
  {
    var a, b := Task(0, false, 0, 0), Task(1, false, 0, 0);
    var e1, e2 := [AddTask(false)], [AddTask(false), AddTask(false)];
    var e3 := e2 + [Tick(0)];
    var e4 := e3 + [Attempt(0, RetryableError, 100)];
    RunSnoc(1, period, [], AddTask(false));
    assert [] + [AddTask(false)] == e1 && e1 + [AddTask(false)] == e2;
    RunSnoc(1, period, e1, AddTask(false));
    assert Run(1, period, e2) == System([false, false], [a, b], [], [], [], []);
    RunSnoc(1, period, e2, Tick(0));
    assert Run(1, period, e3) == System([false, false], [], [], [a, b], [], []);
    RunSnoc(1, period, e3, Attempt(0, RetryableError, 100));
    assert Run(1, period, e4) == System([false, false], [], [Task(0, false, 1, 100 + period)], [b], [0], []);
    RunSnoc(1, period, e4, Attempt(0, RetryableError, 0));
    assert e4 + [Attempt(0, RetryableError, 0)] ==
      [AddTask(false), AddTask(false), Tick(0), Attempt(0, RetryableError, 100), Attempt(0, RetryableError, 0)];
  }
}
