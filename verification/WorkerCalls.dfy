/** The thread pool with tasks that themselves call addTask, and exactly when such a pool gets stuck. */
module WorkerCalls {
  import opened Options
  import opened ThreadPool

  /**
   * calls[w] is the producer that carries out the addTask which the task of worker w is inside of, if any: as long as
   * it is there, worker w stands still in that task and the producer takes the steps of the call.
   */
  datatype Pool = Pool(s: State, calls: seq<Option<nat>>)

  ghost predicate Hosted(t: Pool, p: nat) {
    exists w: nat | w < |t.calls| :: t.calls[w] == Some(p)
  }

  /** The task of worker w begins an addTask. */
  ghost predicate Call(t: Pool, w: nat, p: nat, t': Pool) {
    && w < |t.calls| && w < |t.s.workers| && t.s.workers[w].WRun? && t.calls[w] == None
    && p < |t.s.producers| && t.s.producers[p].PIdle? && !Hosted(t, p)
    && ProducerStep(t.s, p, t'.s) && t'.calls == t.calls[w := Some(p)]
  }

  /** That addTask returns. */
  ghost predicate Return(t: Pool, w: nat, t': Pool) {
    && w < |t.calls| && t.calls[w].Some? && t.calls[w].value < |t.s.producers|
    && t.s.producers[t.calls[w].value].PIdle?
    && t' == t.(calls := t.calls[w := None])
  }

  /** A step of a worker whose task is not inside a call. */
  ghost predicate WorkerOnly(t: Pool, w: nat, t': Pool) {
    t'.calls == t.calls && w < |t.calls| && t.calls[w] == None && WorkerStep(t.s, w, t'.s)
  }

  /** A step of a producer; one that carries out a call for a worker is not free to begin another. */
  ghost predicate ProducerOnly(t: Pool, p: nat, t': Pool) {
    && t'.calls == t.calls && p < |t.s.producers| && ProducerStep(t.s, p, t'.s)
    && (t.s.producers[p].PIdle? ==> !Hosted(t, p))
  }

  ghost predicate StopOnly(t: Pool, t': Pool) {
    t'.calls == t.calls && StopStep(t.s, t'.s)
  }

  ghost predicate PoolNext(t: Pool, t': Pool) {
    || (exists w: nat, p: nat :: Call(t, w, p, t'))
    || (exists w: nat :: Return(t, w, t'))
    || (exists w: nat :: WorkerOnly(t, w, t'))
    || (exists p: nat :: ProducerOnly(t, p, t'))
    || StopOnly(t, t')
  }

  ghost predicate PoolStepAt(run: seq<Pool>, k: nat) {
    0 < k < |run| && PoolNext(run[k - 1], run[k])
  }

  ghost predicate IsPoolRun(run: seq<Pool>) {
    && |run| > 0
    && Init(run[0].s) && |run[0].calls| == |run[0].s.workers|
    && (forall w | 0 <= w < |run[0].calls| :: run[0].calls[w] == None)
    && forall k: nat | 0 < k < |run| :: PoolStepAt(run, k)
  }

  /** A worker inside a call is running a task, and a producer carries out one call at a time. */
  ghost predicate InCall(t: Pool, w: nat) {
    w < |t.calls| && t.calls[w].Some? ==> w < |t.s.workers| && t.s.workers[w].WRun? && t.calls[w].value < |t.s.producers|
  }

  ghost predicate CallsOk(t: Pool) {
    |t.calls| == |t.s.workers| && forall w: nat | w < |t.calls| :: InCall(t, w)
  }

  /** The threads stay the same, and so does worker v unless it moves itself or is woken. */
  ghost predicate Keeps(s: State, s': State, v: nat) {
    && |s'.workers| == |s.workers| && |s'.producers| == |s.producers|
    && (v < |s.workers| && s.workers[v].WRun? ==> s'.workers[v] == s.workers[v])
  }

  lemma WorkerKeeps(s: State, w: nat, s': State, v: nat)
    requires WorkerStep(s, w, s') && w != v
    ensures Keeps(s, s', v)
  {}

  lemma ProducerKeeps(s: State, p: nat, s': State, v: nat)
    requires ProducerStep(s, p, s')
    ensures Keeps(s, s', v)
  {}

  lemma StopKeeps(s: State, s': State, v: nat)
    requires StopStep(s, s')
    ensures Keeps(s, s', v)
  {}

  lemma StepCalls(t: Pool, w: nat, t': Pool)
    requires CallsOk(t) && WorkerOnly(t, w, t')
    ensures CallsOk(t')
  {
    WorkerKeeps(t.s, w, t'.s, w + 1);
    forall v: nat | v < |t'.calls| ensures InCall(t', v) {
      assert InCall(t, v);
      if v != w {
        WorkerKeeps(t.s, w, t'.s, v);
      }
    }
  }

  lemma ProducerCalls(t: Pool, p: nat, t': Pool)
    requires CallsOk(t) && ProducerOnly(t, p, t')
    ensures CallsOk(t')
  {
    ProducerKeeps(t.s, p, t'.s, 0);
    forall v: nat | v < |t'.calls| ensures InCall(t', v) {
      assert InCall(t, v);
      ProducerKeeps(t.s, p, t'.s, v);
    }
  }

  lemma StopCalls(t: Pool, t': Pool)
    requires CallsOk(t) && StopOnly(t, t')
    ensures CallsOk(t')
  {
    StopKeeps(t.s, t'.s, 0);
    forall v: nat | v < |t'.calls| ensures InCall(t', v) {
      assert InCall(t, v);
      StopKeeps(t.s, t'.s, v);
    }
  }

  lemma CallCalls(t: Pool, w: nat, p: nat, t': Pool)
    requires CallsOk(t) && Call(t, w, p, t')
    ensures CallsOk(t')
  {
    ProducerKeeps(t.s, p, t'.s, w);
    forall v: nat | v < |t'.calls| ensures InCall(t', v) {
      assert InCall(t, v);
      ProducerKeeps(t.s, p, t'.s, v);
    }
  }

  lemma ReturnCalls(t: Pool, w: nat, t': Pool)
    requires CallsOk(t) && Return(t, w, t')
    ensures CallsOk(t')
  {
    forall v: nat | v < |t'.calls| ensures InCall(t', v) {
      assert InCall(t, v);
    }
  }

  ghost predicate PoolInv(t: Pool) {
    Inv(t.s) && CallsOk(t)
  }

  /** Everything proved of every step of the pool holds with nested calls too, since they only hold workers back. */
  lemma PoolNextInv(t: Pool, t': Pool)
    requires PoolInv(t) && PoolNext(t, t')
    ensures PoolInv(t')
  {
    if w: nat, p: nat :| Call(t, w, p, t') {
      CallCalls(t, w, p, t');
      ProducerInv(t.s, p, t'.s);
    } else if w: nat :| Return(t, w, t') {
      ReturnCalls(t, w, t');
    } else if w: nat :| WorkerOnly(t, w, t') {
      StepCalls(t, w, t');
      WorkerInv(t.s, w, t'.s);
    } else if p: nat :| ProducerOnly(t, p, t') {
      ProducerCalls(t, p, t');
      ProducerInv(t.s, p, t'.s);
    } else {
      StopCalls(t, t');
      StopInv(t.s, t'.s);
    }
  }

  lemma PoolInitInv(run: seq<Pool>)
    requires IsPoolRun(run)
    ensures PoolInv(run[0])
  {
    InitInv(run[0].s);
  }

  lemma PoolStepInv(run: seq<Pool>, k: nat)
    requires IsPoolRun(run) && 0 < k < |run| && PoolInv(run[k - 1])
    ensures PoolInv(run[k])
  {
    assert PoolStepAt(run, k);
    PoolNextInv(run[k - 1], run[k]);
  }

  lemma {:induction false} PoolRunInv(run: seq<Pool>, k: nat)
    requires IsPoolRun(run) && k < |run|
    ensures PoolInv(run[k])
  {
    if k == 0 {
      PoolInitInv(run);
    } else {
      PoolRunInv(run, k - 1);
      PoolStepInv(run, k);
    }
  }

  // ---------------------------------------------------------------- progress

  ghost predicate WorkerMoves(t: Pool, w: nat) {
    w < |t.calls| && t.calls[w] == None && WorkerReady(t.s, w) && exists s' :: WorkerStep(t.s, w, s')
  }

  ghost predicate CallReturns(t: Pool, w: nat) {
    w < |t.calls| && t.calls[w].Some? && t.calls[w].value < |t.s.producers| && t.s.producers[t.calls[w].value].PIdle?
  }

  ghost predicate ProducerMoves(t: Pool, p: nat) {
    ProducerReady(t.s, p) && exists s' :: ProducerStep(t.s, p, s')
  }

  /** Some thread can take a real step: no spurious wakeup and no new call. */
  ghost predicate PoolProgress(t: Pool) {
    || (exists w: nat :: WorkerMoves(t, w))
    || (exists w: nat :: CallReturns(t, w))
    || (exists p: nat :: ProducerMoves(t, p))
    || (HoldsS(t.s.stop) && exists s' :: StopStep(t.s, s'))
  }

  /** The task of worker w sleeps on _full inside addTask. */
  ghost predicate Asleep(t: Pool, w: nat) {
    w < |t.calls| && t.calls[w].Some? && t.calls[w].value < |t.s.producers| && t.s.producers[t.calls[w].value].PWait?
  }

  ghost predicate AllAsleep(t: Pool) {
    && t.s.owner == Free
    && (forall w: nat | w < |t.s.workers| :: Asleep(t, w))
    && (forall p: nat | p < |t.s.producers| :: t.s.producers[p].PIdle? || t.s.producers[p].PWait?)
  }

  ghost predicate HasWork(s: State) {
    s.queue != [] || exists p: nat | p < |s.producers| :: !s.producers[p].PIdle?
  }

  lemma OwnerMoves(t: Pool)
    requires PoolInv(t) && t.s.owner != Free
    ensures PoolProgress(t)
  {
    match t.s.owner
    case Worker(w) =>
      assert InCall(t, w);
      ReadyWorkerSteps(t.s, w);
      assert WorkerMoves(t, w);
    case Producer(p) =>
      ReadyProducerSteps(t.s, p);
      assert ProducerMoves(t, p);
    case Stopper =>
      StopperMoves(t.s);
  }

  lemma StopperMoves(s: State)
    requires HoldsS(s.stop)
    ensures exists s' :: StopStep(s, s')
  {
    match s.stop
    case SClear => assert StopStep(s, s.(running := false, stop := SBroadcast));
    case SBroadcast => assert StopStep(s, s.(workers := WakeAll(s.workers), stop := SUnlock));
    case SUnlock => assert StopStep(s, s.(owner := Free, stop := SJoin));
  }

  /** A worker that cannot move, with the mutex free, waits on _empty, has exited, or sleeps inside a call. */
  lemma IdleWorker(t: Pool, w: nat)
    requires PoolInv(t) && t.s.owner == Free && !PoolProgress(t) && w < |t.s.workers|
    ensures t.s.workers[w].WWait? || t.s.workers[w].WExit? || Asleep(t, w)
  {
    assert InCall(t, w);
    if t.calls[w] == None {
      if WorkerReady(t.s, w) {
        ReadyWorkerSteps(t.s, w);
        assert WorkerMoves(t, w);
      }
    } else {
      assert !CallReturns(t, w);
      IdleProducer(t, t.calls[w].value);
    }
  }

  lemma IdleProducer(t: Pool, p: nat)
    requires PoolInv(t) && t.s.owner == Free && !PoolProgress(t) && p < |t.s.producers|
    ensures t.s.producers[p].PIdle? || t.s.producers[p].PWait?
  {
    if ProducerReady(t.s, p) {
      ReadyProducerSteps(t.s, p);
      assert ProducerMoves(t, p);
    }
  }

  lemma NobodySignalled(t: Pool)
    requires PoolInv(t) && t.s.owner == Free && !PoolProgress(t)
    ensures Signalled(t.s.workers) == 0 && SignalledP(t.s.producers) == 0
  {
    if Signalled(t.s.workers) > 0 {
      SignalledPositive(t.s.workers);
      var w: nat :| w < |t.s.workers| && SigW(t.s.workers[w]) == 1;
      assert InCall(t, w);
      IdleWorker(t, w);
    }
    if SignalledP(t.s.producers) > 0 {
      SignalledPPositive(t.s.producers);
      var p: nat :| p < |t.s.producers| && SigP(t.s.producers[p]) == 1;
      IdleProducer(t, p);
    }
  }

  /** A stuck pool that has work has no worker waiting for work. */
  lemma NoneWaits(t: Pool, w: nat)
    requires PoolInv(t) && t.s.running && HasWork(t.s) && !PoolProgress(t) && t.s.owner == Free
    requires w < |t.s.workers|
    ensures !t.s.workers[w].WWait?
  {
    NobodySignalled(t);
    if t.s.queue == [] {
      var p: nat :| p < |t.s.producers| && !t.s.producers[p].PIdle?;
      IdleProducer(t, p);
      assert t.s.producers[p].PWait?;
    }
  }

  lemma StuckIsAsleep(t: Pool)
    requires PoolInv(t) && t.s.running && HasWork(t.s) && !PoolProgress(t)
    ensures AllAsleep(t)
  {
    if t.s.owner != Free {
      OwnerMoves(t);
    }
    forall w: nat | w < |t.s.workers| ensures Asleep(t, w) {
      IdleWorker(t, w);
      NoneWaits(t, w);
    }
    forall p: nat | p < |t.s.producers| ensures t.s.producers[p].PIdle? || t.s.producers[p].PWait? {
      IdleProducer(t, p);
    }
  }

  lemma AsleepIsStuck(t: Pool)
    requires PoolInv(t) && AllAsleep(t)
    ensures !PoolProgress(t)
  {
    forall w: nat ensures !WorkerMoves(t, w) && !CallReturns(t, w) {
      if w < |t.calls| {
        assert Asleep(t, w);
      }
    }
  }

  /** What can still happen to such a pool: a spurious wakeup, a call from outside, or stop. */
  ghost predicate FromOutside(s: State, s': State, p: nat) {
    && p < |s.producers| == |s'.producers|
    && ((s.producers[p].PWait? && s'.producers[p] == PWoken(s.producers[p].task, false))
        || (s.producers[p].PIdle? && s'.producers[p].PLock?))
  }

  lemma AsleepSteps(t: Pool, t': Pool)
    requires PoolInv(t) && AllAsleep(t) && PoolNext(t, t')
    ensures t'.s.stop != t.s.stop || exists p: nat :: FromOutside(t.s, t'.s, p)
  {
    forall w: nat ensures !Return(t, w, t') && !WorkerOnly(t, w, t') {
      if w < |t.calls| {
        assert Asleep(t, w);
      }
    }
    forall w: nat, p: nat ensures !Call(t, w, p, t') {
      if w < |t.calls| {
        assert Asleep(t, w);
      }
    }
    if p: nat :| ProducerOnly(t, p, t') {
      assert FromOutside(t.s, t'.s, p);
    }
  }

  lemma AsleepIsFull(t: Pool)
    requires PoolInv(t) && t.s.running && AllAsleep(t)
    ensures |t.s.queue| > t.s.max
  {
    AsleepIsStuck(t);
    NobodySignalled(t);
    assert Asleep(t, 0);
  }

  /**
   * With tasks that add tasks, a running pool that has work is stuck exactly when the task of every worker sleeps on
   * _full inside addTask and no other call can move; the queue is then full. So it moves as long as some worker's
   * task is not inside addTask.
   */
  lemma PoolStuckIff(run: seq<Pool>, k: nat)
    requires IsPoolRun(run) && k < |run| && run[k].s.running && HasWork(run[k].s)
    ensures !PoolProgress(run[k]) <==> AllAsleep(run[k])
    ensures AllAsleep(run[k]) ==> |run[k].s.queue| > run[k].s.max
  {
    PoolRunInv(run, k);
    if AllAsleep(run[k]) {
      AsleepIsStuck(run[k]);
      AsleepIsFull(run[k]);
    } else if !PoolProgress(run[k]) {
      StuckIsAsleep(run[k]);
    }
  }

  /** After stop has broadcast, the pool moves until every worker has exited or sleeps inside addTask for good. */
  lemma StopStuck(run: seq<Pool>, k: nat)
    requires IsPoolRun(run) && k < |run| && (run[k].s.stop.SUnlock? || run[k].s.stop.SJoin?)
    ensures PoolProgress(run[k])
         || forall w: nat | w < |run[k].s.workers| :: run[k].s.workers[w].WExit? || Asleep(run[k], w)
  {
    PoolRunInv(run, k);
    var t := run[k];
    if !PoolProgress(t) {
      if t.s.owner != Free {
        OwnerMoves(t);
      }
      forall w: nat | w < |t.s.workers| ensures t.s.workers[w].WExit? || Asleep(t, w) {
        IdleWorker(t, w);
      }
    }
  }

  // ---------------------------------------------------------------- a pool that gets stuck

  /** One worker and one producer, which still run. */
  function One(max: nat, queue: seq<Task>, owner: Owner, worker: WorkerPC, producer: ProducerPC, pushed: seq<Task>,
               taken: seq<Task>): State
  {
    State(queue, true, owner, [worker], [producer], SIdle, max, pushed, taken, multiset{}, [0])
  }

  /** The worker runs task 1, which is not inside a call. */
  function Running(max: nat, queue: seq<Task>, pushed: seq<Task>): State {
    One(max, queue, Free, WRun(1), PIdle, pushed, [1])
  }

  /** A run goes on. */
  lemma GoOn(run: seq<Pool>, t: Pool) returns (more: seq<Pool>)
    requires IsPoolRun(run) && PoolNext(run[|run| - 1], t)
    ensures IsPoolRun(more) && more[|more| - 1] == t
  {
    more := run + [t];
    forall k: nat | 0 < k < |more| ensures PoolStepAt(more, k) {
      assert k < |run| ==> PoolStepAt(run, k);
    }
  }

  lemma WorkerGoesOn(run: seq<Pool>, s: State, s': State) returns (more: seq<Pool>)
    requires IsPoolRun(run) && run[|run| - 1] == Pool(s, [None]) && WorkerStep(s, 0, s')
    ensures IsPoolRun(more) && more[|more| - 1] == Pool(s', [None])
  {
    assert WorkerOnly(Pool(s, [None]), 0, Pool(s', [None]));
    more := GoOn(run, Pool(s', [None]));
  }

  /** The worker enters take. */
  lemma EnterTake(max: nat) returns (run: seq<Pool>)
    ensures IsPoolRun(run) && run[|run| - 1] == Pool(One(max, [1], Worker(0), WPop(false), PIdle, [1], []), [None])
  {
    var s0 := One(max, [1], Free, WCheck, PIdle, [1], []);
    var s1 := One(max, [1], Free, WLock, PIdle, [1], []);
    var s2 := One(max, [1], Worker(0), WTest(false), PIdle, [1], []);
    run := [Pool(s0, [None])];
    run := WorkerGoesOn(run, s0, s1);
    run := WorkerGoesOn(run, s1, s2);
    run := WorkerGoesOn(run, s2, One(max, [1], Worker(0), WPop(false), PIdle, [1], []));
  }

  /** It takes task 1 and runs it. */
  lemma TakeOne(max: nat) returns (run: seq<Pool>)
    ensures IsPoolRun(run) && run[|run| - 1] == Pool(Running(max, [], [1]), [None])
  {
    var s3 := One(max, [1], Worker(0), WPop(false), PIdle, [1], []);
    var s4 := One(max, [], Worker(0), WNotify(1), PIdle, [1], [1]);
    var s5 := One(max, [], Worker(0), WUnlock(Some(1)), PIdle, [1], [1]);
    run := EnterTake(max);
    run := WorkerGoesOn(run, s3, s4);
    assert SignalFull([PIdle], [PIdle]);
    run := WorkerGoesOn(run, s4, s5);
    run := WorkerGoesOn(run, s5, Running(max, [], [1]));
  }

  lemma ProducerGoesOn(run: seq<Pool>, s: State, s': State) returns (more: seq<Pool>)
    requires IsPoolRun(run) && run[|run| - 1] == Pool(s, [Some(0)])
    requires ProducerStep(s, 0, s') && !s.producers[0].PIdle?
    ensures IsPoolRun(more) && more[|more| - 1] == Pool(s', [Some(0)])
  {
    assert ProducerOnly(Pool(s, [Some(0)]), 0, Pool(s', [Some(0)]));
    more := GoOn(run, Pool(s', [Some(0)]));
  }

  /** The task calls addTask, which looks at the queue. */
  lemma EnterAdd(max: nat, run: seq<Pool>, queue: seq<Task>, pushed: seq<Task>, task: Task) returns (more: seq<Pool>)
    requires IsPoolRun(run) && run[|run| - 1] == Pool(Running(max, queue, pushed), [None])
    ensures IsPoolRun(more)
    ensures more[|more| - 1] == Pool(One(max, queue, Producer(0), WRun(1), PTest(task, false), pushed, [1]), [Some(0)])
  {
    var s, s' := Running(max, queue, pushed), One(max, queue, Free, WRun(1), PLock(task), pushed, [1]);
    assert s' == s.(producers := s.producers[0 := PLock(task)]);
    assert [None][0 := Some(0)] == [Some(0)];
    assert Call(Pool(s, [None]), 0, 0, Pool(s', [Some(0)]));
    more := GoOn(run, Pool(s', [Some(0)]));
    more := ProducerGoesOn(more, s', One(max, queue, Producer(0), WRun(1), PTest(task, false), pushed, [1]));
  }

  /** With room in the queue the task is pushed and the call returns. */
  lemma LeaveAdd(max: nat, run: seq<Pool>, queue: seq<Task>, pushed: seq<Task>, task: Task) returns (more: seq<Pool>)
    requires IsPoolRun(run) && |queue| <= max
    requires run[|run| - 1] == Pool(One(max, queue, Producer(0), WRun(1), PTest(task, false), pushed, [1]), [Some(0)])
    ensures IsPoolRun(more) && more[|more| - 1] == Pool(Running(max, queue + [task], pushed + [task]), [None])
  {
    var q, p := queue + [task], pushed + [task];
    var s8 := One(max, queue, Producer(0), WRun(1), PTest(task, false), pushed, [1]);
    var s9 := One(max, queue, Producer(0), WRun(1), PPush(task, false), pushed, [1]);
    var s10 := One(max, q, Producer(0), WRun(1), PNotify, p, [1]);
    var s11 := One(max, q, Producer(0), WRun(1), PUnlock, p, [1]);
    var s12 := Running(max, q, p);
    more := ProducerGoesOn(run, s8, s9);
    more := ProducerGoesOn(more, s9, s10);
    assert SignalEmpty([WRun(1)], [WRun(1)]);
    more := ProducerGoesOn(more, s10, s11);
    more := ProducerGoesOn(more, s11, s12);
    assert [Some(0)][0 := None] == [None];
    assert Return(Pool(s12, [Some(0)]), 0, Pool(s12, [None]));
    more := GoOn(more, Pool(s12, [None]));
  }

  /** The task adds tasks until the queue is full. */
  lemma {:induction false} Fill(max: nat, run: seq<Pool>, queue: seq<Task>, pushed: seq<Task>)
    returns (more: seq<Pool>, full: seq<Task>, all: seq<Task>)
    requires IsPoolRun(run) && |queue| <= max + 1 && run[|run| - 1] == Pool(Running(max, queue, pushed), [None])
    ensures IsPoolRun(more) && |full| == max + 1 && more[|more| - 1] == Pool(Running(max, full, all), [None])
    decreases max + 1 - |queue|
  {
    if |queue| == max + 1 {
      more, full, all := run, queue, pushed;
    } else {
      more := EnterAdd(max, run, queue, pushed, 2);
      more := LeaveAdd(max, more, queue, pushed, 2);
      more, full, all := Fill(max, more, queue + [2], pushed + [2]);
    }
  }

  /** It is real for every limit: one task that adds max + 2 tasks blocks a pool of one worker, which then has work. */
  lemma PoolGetsStuck(max: nat) returns (run: seq<Pool>)
    ensures IsPoolRun(run)
    ensures var t := run[|run| - 1]; t.s.running && t.s.max == max && HasWork(t.s) && AllAsleep(t)
  {
    var full, all;
    run := TakeOne(max);
    run, full, all := Fill(max, run, [], [1]);
    run := EnterAdd(max, run, full, all, 3);
    var s := One(max, full, Producer(0), WRun(1), PTest(3, false), all, [1]);
    var s' := One(max, full, Free, WRun(1), PWait(3), all, [1]);
    run := ProducerGoesOn(run, s, s');
    assert Asleep(Pool(s', [Some(0)]), 0);
  }
}
