/** The fixed-size thread pool: worker threads, producers calling addTask and one caller of stop,
    interleaved over a bounded queue, one mutex and the two condition variables _empty and _full.
    A condition wait releases the mutex and enqueues its thread atomically; a signal wakes one waiting
    thread if there is one; a waiting thread may also wake spuriously. */
module ThreadPool {
  import opened Options

  type Task = nat

  datatype Owner = Free | Worker(w: nat) | Producer(p: nat) | Stopper

  /** What a worker executes next. `sig` marks a thread that a signal has woken and that has not
      yet acted on it; it is bookkeeping and no step depends on it. */
  datatype WorkerPC =
    | WCheck                       // while(isRunning), read without the mutex
    | WLock                        // entering take()
    | WTest(sig: bool)             // mutex held: while(_wq.empty() && isRunning)
    | WWait                        // blocked on _empty, no signal received
    | WWoken(sig: bool)            // woken, must get the mutex back
    | WPop(sig: bool)              // mutex held: if(!_wq.empty()) front and pop
    | WNotify(task: Task)          // mutex held: _full.notify()
    | WUnlock(got: Option<Task>)   // mutex held: leaving take()
    | WRun(task: Task)             // running the task
    | WExit

  /** What a producer executes next. */
  datatype ProducerPC =
    | PIdle
    | PLock(task: Task)
    | PTest(task: Task, sig: bool)   // mutex held: while(_wq.size() > maxQueSize && isRunning)
    | PWait(task: Task)              // blocked on _full, no signal received
    | PWoken(task: Task, sig: bool)
    | PPush(task: Task, sig: bool)   // mutex held: _wq.push(cb)
    | PNotify                        // mutex held: _empty.notify()
    | PUnlock

  /** What the caller of stop executes next. */
  datatype StopPC = SIdle | SLock | SClear | SBroadcast | SUnlock | SJoin | SDone

  /** `pushed`, `taken`, `done` and `late` are history: tasks pushed and taken so far, in order, tasks
      finished, and for each worker how many tasks it started after isRunning was cleared. */
  datatype State = State(
    queue: seq<Task>,
    running: bool,
    owner: Owner,
    workers: seq<WorkerPC>,
    producers: seq<ProducerPC>,
    stop: StopPC,
    max: nat,
    pushed: seq<Task>,
    taken: seq<Task>,
    done: multiset<Task>,
    late: seq<nat>)

  /** The pool just after start: any number of tasks may already be queued. */
  ghost predicate Init(s: State) {
    && s.running && s.owner == Free && s.stop == SIdle
    && s.pushed == s.queue && s.taken == [] && s.done == multiset{}
    && |s.workers| == |s.late| > 0
    && (forall w | 0 <= w < |s.workers| :: s.workers[w] == WCheck && s.late[w] == 0)
    && (forall p | 0 <= p < |s.producers| :: s.producers[p] == PIdle)
  }

  // ---------------------------------------------------------------- steps

  ghost predicate SignalEmpty(ws: seq<WorkerPC>, ws': seq<WorkerPC>) {
    || ((forall w | 0 <= w < |ws| :: !ws[w].WWait?) && ws' == ws)
    || (exists w | 0 <= w < |ws| :: ws[w].WWait? && ws' == ws[w := WWoken(true)])
  }

  ghost predicate SignalFull(ps: seq<ProducerPC>, ps': seq<ProducerPC>) {
    || ((forall p | 0 <= p < |ps| :: !ps[p].PWait?) && ps' == ps)
    || (exists p | 0 <= p < |ps| :: ps[p].PWait? && ps' == ps[p := PWoken(ps[p].task, true)])
  }

  function WakeAll(ws: seq<WorkerPC>): (ws': seq<WorkerPC>)
    ensures |ws'| == |ws|
    ensures forall w | 0 <= w < |ws| :: ws'[w] == if ws[w].WWait? then WWoken(true) else ws[w]
  {
    seq(|ws|, w requires 0 <= w < |ws| => if ws[w].WWait? then WWoken(true) else ws[w])
  }

  ghost predicate WorkerStep(s: State, w: nat, s': State) {
    && w < |s.workers| == |s.late|
    && match s.workers[w]
       case WCheck =>
         s' == s.(workers := s.workers[w := if s.running then WLock else WExit])
       case WLock =>
         s.owner == Free && s' == s.(owner := Worker(w), workers := s.workers[w := WTest(false)])
       case WTest(sig) =>
         if s.queue == [] && s.running
         then s' == s.(owner := Free, workers := s.workers[w := WWait])
         else s' == s.(workers := s.workers[w := WPop(sig)])
       case WWait =>
         s' == s.(workers := s.workers[w := WWoken(false)])  // spurious wakeup
       case WWoken(sig) =>
         s.owner == Free && s' == s.(owner := Worker(w), workers := s.workers[w := WTest(sig)])
       case WPop(sig) =>
         if s.queue != []
         then s' == s.(queue := s.queue[1..], taken := s.taken + [s.queue[0]],
                       workers := s.workers[w := WNotify(s.queue[0])])
         else s' == s.(workers := s.workers[w := WUnlock(None)])
       case WNotify(task) =>
         exists ps' :: SignalFull(s.producers, ps')
                       && s' == s.(producers := ps', workers := s.workers[w := WUnlock(Some(task))])
       case WUnlock(None) =>
         s' == s.(owner := Free, workers := s.workers[w := WCheck])
       case WUnlock(Some(task)) =>
         s' == s.(owner := Free, workers := s.workers[w := WRun(task)],
                  late := s.late[w := s.late[w] + if s.running then 0 else 1])
       case WRun(task) =>
         s' == s.(workers := s.workers[w := WCheck], done := s.done + multiset{task})
       case WExit => false
  }

  ghost predicate ProducerStep(s: State, p: nat, s': State) {
    && p < |s.producers|
    && match s.producers[p]
       case PIdle =>
         exists task :: s' == s.(producers := s.producers[p := PLock(task)])
       case PLock(task) =>
         s.owner == Free && s' == s.(owner := Producer(p), producers := s.producers[p := PTest(task, false)])
       case PTest(task, sig) =>
         if |s.queue| > s.max && s.running
         then s' == s.(owner := Free, producers := s.producers[p := PWait(task)])
         else s' == s.(producers := s.producers[p := PPush(task, sig)])
       case PWait(task) =>
         s' == s.(producers := s.producers[p := PWoken(task, false)])  // spurious wakeup
       case PWoken(task, sig) =>
         s.owner == Free && s' == s.(owner := Producer(p), producers := s.producers[p := PTest(task, sig)])
       case PPush(task, sig) =>
         s' == s.(queue := s.queue + [task], pushed := s.pushed + [task], producers := s.producers[p := PNotify])
       case PNotify =>
         exists ws' :: SignalEmpty(s.workers, ws') && s' == s.(workers := ws', producers := s.producers[p := PUnlock])
       case PUnlock =>
         s' == s.(owner := Free, producers := s.producers[p := PIdle])
  }

  ghost predicate StopStep(s: State, s': State) {
    match s.stop
    case SIdle => s' == s.(stop := SLock)
    case SLock => s.owner == Free && s' == s.(owner := Stopper, stop := SClear)
    case SClear => s' == s.(running := false, stop := SBroadcast)
    case SBroadcast => s' == s.(workers := WakeAll(s.workers), stop := SUnlock)
    case SUnlock => s' == s.(owner := Free, stop := SJoin)
    case SJoin => (forall w | 0 <= w < |s.workers| :: s.workers[w] == WExit) && s' == s.(stop := SDone)
    case SDone => false
  }

  ghost predicate Next(s: State, s': State) {
    || (exists w: nat :: WorkerStep(s, w, s'))
    || (exists p: nat :: ProducerStep(s, p, s'))
    || StopStep(s, s')
  }

  ghost predicate IsRun(run: seq<State>) {
    && |run| > 0
    && Init(run[0])
    && forall k: nat | 0 < k < |run| :: StepAt(run, k)
  }

  ghost predicate StepAt(run: seq<State>, k: nat) {
    0 < k < |run| && Next(run[k - 1], run[k])
  }

  // ---------------------------------------------------------------- counting threads

  /** Workers that a signal on _empty has woken and that have not acted on it yet. */
  ghost function Signalled(ws: seq<WorkerPC>): nat {
    if |ws| == 0 then 0
    else Signalled(ws[..|ws| - 1]) + SigW(ws[|ws| - 1])
  }

  ghost function SigW(pc: WorkerPC): nat {
    if (pc.WTest? || pc.WWoken? || pc.WPop?) && pc.sig then 1 else 0
  }

  /** Producers that a signal on _full has woken and that have not acted on it yet. */
  ghost function SignalledP(ps: seq<ProducerPC>): nat {
    if |ps| == 0 then 0
    else SignalledP(ps[..|ps| - 1]) + SigP(ps[|ps| - 1])
  }

  ghost function SigP(pc: ProducerPC): nat {
    if (pc.PTest? || pc.PWoken? || pc.PPush?) && pc.sig then 1 else 0
  }

  /** The tasks that workers hold: taken from the queue and not finished. */
  ghost function Held(ws: seq<WorkerPC>): multiset<Task> {
    if |ws| == 0 then multiset{}
    else Held(ws[..|ws| - 1]) + HeldBy(ws[|ws| - 1])
  }

  ghost function HeldBy(pc: WorkerPC): multiset<Task> {
    match pc
    case WNotify(task) => multiset{task}
    case WUnlock(Some(task)) => multiset{task}
    case WRun(task) => multiset{task}
    case _ => multiset{}
  }

  lemma {:induction false} SignalledUpdate(ws: seq<WorkerPC>, w: nat, pc: WorkerPC)
    requires w < |ws|
    ensures Signalled(ws[w := pc]) + SigW(ws[w]) == Signalled(ws) + SigW(pc)
    ensures SigW(ws[w]) <= Signalled(ws)
  {
    var n := |ws| - 1;
    if w < n {
      SignalledUpdate(ws[..n], w, pc);
      assert ws[w := pc][..n] == ws[..n][w := pc];
    } else {
      assert ws[w := pc][..n] == ws[..n];
    }
  }

  lemma {:induction false} SignalledPUpdate(ps: seq<ProducerPC>, p: nat, pc: ProducerPC)
    requires p < |ps|
    ensures SignalledP(ps[p := pc]) + SigP(ps[p]) == SignalledP(ps) + SigP(pc)
    ensures SigP(ps[p]) <= SignalledP(ps)
  {
    var n := |ps| - 1;
    if p < n {
      SignalledPUpdate(ps[..n], p, pc);
      assert ps[p := pc][..n] == ps[..n][p := pc];
    } else {
      assert ps[p := pc][..n] == ps[..n];
    }
  }

  lemma {:induction false} HeldUpdate(ws: seq<WorkerPC>, w: nat, pc: WorkerPC)
    requires w < |ws|
    ensures forall t :: Held(ws[w := pc])[t] + HeldBy(ws[w])[t] == Held(ws)[t] + HeldBy(pc)[t]
  {
    var n, vs := |ws| - 1, ws[w := pc];
    if w < n {
      HeldUpdate(ws[..n], w, pc);
      assert vs[..n] == ws[..n][w := pc] && vs[n] == ws[n];
    } else {
      assert vs[..n] == ws[..n] && vs[n] == pc;
    }
    HeldSplit(ws, n);
    HeldSplit(vs, n);
  }

  lemma HeldSplit(ws: seq<WorkerPC>, n: nat)
    requires |ws| == n + 1
    ensures forall t :: Held(ws)[t] == Held(ws[..n])[t] + HeldBy(ws[n])[t]
  {}

  lemma {:induction false} HeldWakeAll(ws: seq<WorkerPC>)
    ensures Held(WakeAll(ws)) == Held(ws)
  {
    if |ws| == 0 {
    } else {
      var n := |ws| - 1;
      HeldWakeAll(ws[..n]);
      assert WakeAll(ws)[..n] == WakeAll(ws[..n]);
    }
  }

  lemma {:induction false} SignalledPositive(ws: seq<WorkerPC>)
    requires Signalled(ws) > 0
    ensures exists w | 0 <= w < |ws| :: SigW(ws[w]) == 1
  {
    var n := |ws| - 1;
    if SigW(ws[n]) == 1 {
    } else {
      SignalledPositive(ws[..n]);
      var w :| 0 <= w < n && SigW(ws[..n][w]) == 1;
      assert SigW(ws[w]) == 1;
    }
  }

  lemma {:induction false} SignalledPPositive(ps: seq<ProducerPC>)
    requires SignalledP(ps) > 0
    ensures exists p | 0 <= p < |ps| :: SigP(ps[p]) == 1
  {
    var n := |ps| - 1;
    if SigP(ps[n]) == 1 {
    } else {
      SignalledPPositive(ps[..n]);
      var p :| 0 <= p < n && SigP(ps[..n][p]) == 1;
      assert SigP(ps[p]) == 1;
    }
  }

  // ---------------------------------------------------------------- the invariant

  predicate HoldsW(pc: WorkerPC) {
    pc.WTest? || pc.WPop? || pc.WNotify? || pc.WUnlock?
  }

  predicate HoldsP(pc: ProducerPC) {
    pc.PTest? || pc.PPush? || pc.PNotify? || pc.PUnlock?
  }

  predicate HoldsS(pc: StopPC) {
    pc.SClear? || pc.SBroadcast? || pc.SUnlock?
  }

  /** The mutex is held by exactly the thread that its program counter says. */
  ghost predicate OwnerOk(s: State) {
    && (forall w: nat | w < |s.workers| :: HoldsW(s.workers[w]) <==> s.owner == Worker(w))
    && (forall p: nat | p < |s.producers| :: HoldsP(s.producers[p]) <==> s.owner == Producer(p))
    && (HoldsS(s.stop) <==> s.owner == Stopper)
    && (s.owner.Worker? ==> s.owner.w < |s.workers|)
    && (s.owner.Producer? ==> s.owner.p < |s.producers|)
  }

  ghost predicate Conserved(s: State) {
    Balanced(s.pushed, s.taken, s.queue, Held(s.workers), s.done)
  }

  /** A producer between its push and its signal on _empty. */
  ghost function Announcing(s: State): nat {
    if s.owner.Producer? && s.owner.p < |s.producers| && s.producers[s.owner.p].PNotify? then 1 else 0
  }

  /** A worker between its pop and its signal on _full. */
  ghost function Draining(s: State): nat {
    if s.owner.Worker? && s.owner.w < |s.workers| && s.workers[s.owner.w].WNotify? then 1 else 0
  }

  /** No signal on _empty is missing. */
  ghost predicate EmptyOk(s: State) {
    s.running && (exists w | 0 <= w < |s.workers| :: s.workers[w].WWait?)
    ==> |s.queue| <= Signalled(s.workers) + Announcing(s)
  }

  /** No signal on _full is missing. */
  ghost predicate FullOk(s: State) {
    s.running && (exists p | 0 <= p < |s.producers| :: s.producers[p].PWait?)
    ==> |s.queue| + SignalledP(s.producers) + Draining(s) >= s.max + 1
  }

  /** Whoever is about to push has seen room for it. */
  ghost predicate PushOk(s: State) {
    s.running ==> forall p: nat | p < |s.producers| && s.producers[p].PPush? :: |s.queue| <= s.max
  }

  /** While the pool runs, take has waited until there was a task, and leaves with it. */
  ghost predicate TakeOk(s: State) {
    s.running ==> forall w: nat | w < |s.workers| ::
      && (s.workers[w].WPop? ==> s.queue != [])
      && (s.workers[w].WUnlock? ==> s.workers[w].got.Some?)
  }

  /** stop has cleared isRunning exactly when it is past that statement. */
  ghost predicate StopOk(s: State) {
    && (s.running <==> s.stop.SIdle? || s.stop.SLock? || s.stop.SClear?)
    && (s.stop.SUnlock? || s.stop.SJoin? || s.stop.SDone? ==> forall w | 0 <= w < |s.workers| :: !s.workers[w].WWait?)
    && (s.stop.SDone? ==> forall w | 0 <= w < |s.workers| :: s.workers[w] == WExit)
    && (s.running ==> forall w | 0 <= w < |s.workers| :: !s.workers[w].WExit?)
  }

  ghost predicate LateOk(s: State) {
    && |s.late| == |s.workers| > 0
    && (s.running ==> forall w | 0 <= w < |s.late| :: s.late[w] == 0)
    && (forall w: nat | w < |s.late| :: s.late[w] <= 1)
    && (forall w: nat | w < |s.late| && s.late[w] == 1 ::
          s.workers[w].WRun? || s.workers[w].WCheck? || s.workers[w].WExit?)
  }

  ghost predicate Inv(s: State) {
    OwnerOk(s) && Conserved(s) && EmptyOk(s) && FullOk(s) && PushOk(s) && TakeOk(s) && StopOk(s) && LateOk(s)
  }

  // ---------------------------------------------------------------- every step keeps it

  lemma InitInv(s: State)
    requires Init(s)
    ensures Inv(s)
  {
    HeldNone(s.workers);
  }

  lemma {:induction false} HeldNone(ws: seq<WorkerPC>)
    requires forall w | 0 <= w < |ws| :: ws[w] == WCheck
    ensures Held(ws) == multiset{}
  {
    if |ws| == 0 {
    } else {
      HeldNone(ws[..|ws| - 1]);
    }
  }

  lemma WorkerInv(s: State, w: nat, s': State)
    requires Inv(s) && WorkerStep(s, w, s')
    ensures Inv(s')
  {
    WorkerConserved(s, w, s');
    WorkerEmpty(s, w, s');
    WorkerFull(s, w, s');
    WorkerOwner(s, w, s');
    WorkerLate(s, w, s');
    WorkerTake(s, w, s');
  }

  lemma WorkerOwner(s: State, w: nat, s': State)
    requires OwnerOk(s) && WorkerStep(s, w, s')
    ensures OwnerOk(s')
  {}

  lemma WorkerTake(s: State, w: nat, s': State)
    requires OwnerOk(s) && TakeOk(s) && WorkerStep(s, w, s')
    ensures TakeOk(s')
  {
    assert forall v | 0 <= v < |s.workers| && v != w :: s'.workers[v] == s.workers[v];
  }

  lemma ProducerTake(s: State, p: nat, s': State)
    requires TakeOk(s) && ProducerStep(s, p, s')
    ensures TakeOk(s')
  {}

  lemma StopTake(s: State, s': State)
    requires TakeOk(s) && StopStep(s, s')
    ensures TakeOk(s')
  {}

  lemma WorkerLate(s: State, w: nat, s': State)
    requires PushOk(s) && StopOk(s) && LateOk(s) && WorkerStep(s, w, s')
    ensures PushOk(s') && StopOk(s') && LateOk(s')
  {}

  /** Conservation speaks of these components only. */
  ghost predicate Balanced(pushed: seq<Task>, taken: seq<Task>, queue: seq<Task>, held: multiset<Task>, done: multiset<Task>)
  {
    pushed == taken + queue && multiset(taken) == held + done
  }

  lemma WorkerConserved(s: State, w: nat, s': State)
    requires Conserved(s) && WorkerStep(s, w, s')
    ensures Conserved(s')
  {
    var ws := s.workers;
    if ws[w].WPop? && s.queue != [] {
      PopBalanced(s.pushed, s.taken, s.queue, ws, w, s.done);
    } else if ws[w].WRun? {
      RunBalanced(s.pushed, s.taken, s.queue, ws, w, s.done);
    } else {
      QuietWorker(s, w, s');
      HeldSame(ws, w, s'.workers[w]);
    }
  }

  /** Every other step of a worker leaves the tasks where they are. */
  lemma QuietWorker(s: State, w: nat, s': State)
    requires WorkerStep(s, w, s') && !s.workers[w].WRun? && !(s.workers[w].WPop? && s.queue != [])
    ensures s'.taken == s.taken && s'.queue == s.queue && s'.pushed == s.pushed && s'.done == s.done
    ensures w < |s'.workers| && s'.workers == s.workers[w := s'.workers[w]]
    ensures HeldBy(s'.workers[w]) == HeldBy(s.workers[w])
  {}

  lemma PopBalanced(pushed: seq<Task>, taken: seq<Task>, queue: seq<Task>, ws: seq<WorkerPC>, w: nat, done: multiset<Task>)
    requires Balanced(pushed, taken, queue, Held(ws), done) && queue != [] && w < |ws| && ws[w].WPop?
    ensures Balanced(pushed, taken + [queue[0]], queue[1..], Held(ws[w := WNotify(queue[0])]), done)
  {
    assert taken + [queue[0]] + queue[1..] == taken + queue;
    HeldUpdate(ws, w, WNotify(queue[0]));
    TakenGrows(taken, queue[0], Held(ws), Held(ws[w := WNotify(queue[0])]), done);
  }

  lemma RunBalanced(pushed: seq<Task>, taken: seq<Task>, queue: seq<Task>, ws: seq<WorkerPC>, w: nat, done: multiset<Task>)
    requires Balanced(pushed, taken, queue, Held(ws), done) && w < |ws| && ws[w].WRun?
    ensures Balanced(pushed, taken, queue, Held(ws[w := WCheck]), done + multiset{ws[w].task})
  {
    HeldUpdate(ws, w, WCheck);
    TaskMoves(Held(ws), Held(ws[w := WCheck]), done, ws[w].task);
  }

  lemma TaskMoves(held: multiset<Task>, held': multiset<Task>, done: multiset<Task>, t: Task)
    requires forall u :: held'[u] + multiset{t}[u] == held[u] + multiset{}[u]
    ensures held' + (done + multiset{t}) == held + done
  {
    assert held' + multiset{t} == held;
  }

  lemma HeldSame(ws: seq<WorkerPC>, w: nat, pc: WorkerPC)
    requires w < |ws| && HeldBy(ws[w]) == HeldBy(pc)
    ensures Held(ws[w := pc]) == Held(ws)
  {
    HeldUpdate(ws, w, pc);
  }

  lemma TakenGrows(taken: seq<Task>, t: Task, held: multiset<Task>, held': multiset<Task>, done: multiset<Task>)
    requires multiset(taken) == held + done
    requires forall u :: held'[u] == held[u] + multiset{t}[u]
    ensures multiset(taken + [t]) == held' + done
  {
    assert held' == held + multiset{t};
  }

  lemma WorkerEmpty(s: State, w: nat, s': State)
    requires OwnerOk(s) && EmptyOk(s) && WorkerStep(s, w, s')
    ensures EmptyOk(s')
  {
    var pc := s'.workers[w];
    assert s'.workers == s.workers[w := pc];
    SignalledUpdate(s.workers, w, pc);
    if !pc.WWait? {
      assert forall v | 0 <= v < |s.workers| && s'.workers[v].WWait? :: s.workers[v].WWait?;
    }
  }

  lemma WorkerFull(s: State, w: nat, s': State)
    requires OwnerOk(s) && FullOk(s) && WorkerStep(s, w, s')
    ensures FullOk(s')
  {
    if s.workers[w].WNotify? && exists p | 0 <= p < |s.producers| :: s.producers[p].PWait? {
      var p: nat :| p < |s.producers| && s.producers[p].PWait?
                    && s'.producers == s.producers[p := PWoken(s.producers[p].task, true)];
      SignalledPUpdate(s.producers, p, s'.producers[p]);
    }
  }

  lemma ProducerInv(s: State, p: nat, s': State)
    requires Inv(s) && ProducerStep(s, p, s')
    ensures Inv(s')
  {
    ProducerConserved(s, p, s');
    ProducerEmpty(s, p, s');
    ProducerFull(s, p, s');
    ProducerOwner(s, p, s');
    ProducerLate(s, p, s');
    ProducerTake(s, p, s');
  }

  lemma ProducerOwner(s: State, p: nat, s': State)
    requires OwnerOk(s) && ProducerStep(s, p, s')
    ensures OwnerOk(s')
  {}

  lemma ProducerLate(s: State, p: nat, s': State)
    requires OwnerOk(s) && PushOk(s) && StopOk(s) && LateOk(s) && ProducerStep(s, p, s')
    ensures PushOk(s') && StopOk(s') && LateOk(s')
  {}

  lemma ProducerConserved(s: State, p: nat, s': State)
    requires Conserved(s) && ProducerStep(s, p, s')
    ensures Conserved(s')
  {
    if s.producers[p].PPush? {
      assert s'.pushed == s.taken + s'.queue;
    } else if s'.workers != s.workers {
      var w: nat :| w < |s.workers| && s.workers[w].WWait? && s'.workers == s.workers[w := WWoken(true)];
      HeldSame(s.workers, w, WWoken(true));
    }
  }

  lemma ProducerEmpty(s: State, p: nat, s': State)
    requires OwnerOk(s) && EmptyOk(s) && ProducerStep(s, p, s')
    ensures EmptyOk(s')
  {
    if s'.workers != s.workers {
      var w: nat :| w < |s.workers| && s.workers[w].WWait? && s'.workers == s.workers[w := WWoken(true)];
      SignalledUpdate(s.workers, w, WWoken(true));
    }
  }

  lemma ProducerFull(s: State, p: nat, s': State)
    requires OwnerOk(s) && FullOk(s) && ProducerStep(s, p, s')
    ensures FullOk(s')
  {
    var pc := s'.producers[p];
    assert s'.producers == s.producers[p := pc];
    SignalledPUpdate(s.producers, p, pc);
    if !pc.PWait? {
      assert forall q | 0 <= q < |s.producers| && s'.producers[q].PWait? :: s.producers[q].PWait?;
    }
  }

  lemma StopInv(s: State, s': State)
    requires Inv(s) && StopStep(s, s')
    ensures Inv(s')
  {
    StopOwner(s, s');
    StopSignals(s, s');
    StopTake(s, s');
    assert Conserved(s') by {
      HeldWakeAll(s.workers);
    }
  }

  lemma StopOwner(s: State, s': State)
    requires OwnerOk(s) && StopStep(s, s')
    ensures OwnerOk(s')
  {}

  lemma StopSignals(s: State, s': State)
    requires OwnerOk(s) && EmptyOk(s) && FullOk(s) && PushOk(s) && StopOk(s) && LateOk(s) && StopStep(s, s')
    ensures EmptyOk(s') && FullOk(s') && PushOk(s') && StopOk(s') && LateOk(s')
  {}

  lemma NextInv(s: State, s': State)
    requires Inv(s) && Next(s, s')
    ensures Inv(s')
  {
    if w: nat :| WorkerStep(s, w, s') {
      WorkerInv(s, w, s');
    } else if p: nat :| ProducerStep(s, p, s') {
      ProducerInv(s, p, s');
    } else {
      StopInv(s, s');
    }
  }

  lemma {:induction false} RunInv(run: seq<State>, k: nat)
    requires IsRun(run) && k < |run|
    ensures Inv(run[k])
  {
    if k == 0 {
      InitInv(run[0]);
    } else {
      RunInv(run, k - 1);
      assert StepAt(run, k);
      NextInv(run[k - 1], run[k]);
    }
  }

  // ---------------------------------------------------------------- what it means

  /** No lost wakeup: a worker asleep on _empty means that every queued task already has a signalled worker
      coming for it; a producer asleep on _full means that the free room is already promised to signalled
      producers. A thread between its queue operation and its own signal accounts for one more. */
  lemma NoLostWakeup(run: seq<State>, k: nat)
    requires IsRun(run) && k < |run| && run[k].running
    ensures var s := run[k];
            && ((exists w | 0 <= w < |s.workers| :: s.workers[w].WWait?)
                ==> |s.queue| <= Signalled(s.workers) + Announcing(s))
            && ((exists p | 0 <= p < |s.producers| :: s.producers[p].PWait?)
                ==> |s.queue| + SignalledP(s.producers) + Draining(s) >= s.max + 1)
            && (s.owner == Free ==> Announcing(s) == 0 && Draining(s) == 0)
  {
    RunInv(run, k);
  }

  /** take waits: while the pool runs, a worker that leaves take has a task, and one about to take it finds it there. */
  lemma TakeReturnsTask(run: seq<State>, k: nat, w: nat)
    requires IsRun(run) && k < |run| && run[k].running && w < |run[k].workers|
    ensures run[k].workers[w].WUnlock? ==> run[k].workers[w].got.Some?
    ensures run[k].workers[w].WPop? ==> run[k].queue != []
  {
    RunInv(run, k);
  }

  /** Whoever waits on a condition in s' has been waiting in s. */
  ghost predicate NoNewWaiter(s: State, s': State) {
    && !s'.running && |s'.workers| == |s.workers| && |s'.producers| == |s.producers|
    && (forall p: nat | p < |s'.producers| && s'.producers[p].PWait? :: s.producers[p].PWait?)
    && (forall w: nat | w < |s'.workers| && s'.workers[w].WWait? :: s.workers[w].WWait?)
  }

  lemma WorkerWaits(s: State, w: nat, s': State)
    requires !s.running && WorkerStep(s, w, s')
    ensures NoNewWaiter(s, s')
  {}

  lemma ProducerWaits(s: State, p: nat, s': State)
    requires !s.running && ProducerStep(s, p, s')
    ensures NoNewWaiter(s, s')
  {}

  lemma StopWaits(s: State, s': State)
    requires !s.running && StopStep(s, s')
    ensures NoNewWaiter(s, s')
  {}

  lemma NextWaits(s: State, s': State)
    requires !s.running && Next(s, s')
    ensures NoNewWaiter(s, s')
  {
    if w: nat :| WorkerStep(s, w, s') {
      WorkerWaits(s, w, s');
    } else if p: nat :| ProducerStep(s, p, s') {
      ProducerWaits(s, p, s');
    } else {
      StopWaits(s, s');
    }
  }

  /** Once isRunning is cleared nobody begins to wait, on _empty or on _full: whoever waits then waited before. */
  lemma {:induction false} NobodyBeginsToWait(run: seq<State>, j: nat, k: nat)
    requires IsRun(run) && j <= k < |run| && !run[j].running
    ensures NoNewWaiter(run[j], run[k])
    decreases k
  {
    if j == k {
    } else {
      NobodyBeginsToWait(run, j, k - 1);
      assert StepAt(run, k);
      NextWaits(run[k - 1], run[k]);
    }
  }

  function AtLeast(a: nat, b: nat): nat {
    if a < b then b else a
  }

  /** A step may lengthen the queue only up to the limit. */
  ghost predicate BoundKept(s: State, s': State) {
    s'.running ==> s.running && s'.max == s.max && |s'.queue| <= AtLeast(|s.queue|, s.max + 1)
  }

  lemma WorkerBound(s: State, w: nat, s': State)
    requires WorkerStep(s, w, s')
    ensures BoundKept(s, s')
  {}

  lemma ProducerBound(s: State, p: nat, s': State)
    requires PushOk(s) && ProducerStep(s, p, s')
    ensures BoundKept(s, s')
  {}

  lemma StopBound(s: State, s': State)
    requires StopStep(s, s')
    ensures BoundKept(s, s')
  {}

  lemma NextBound(s: State, s': State)
    requires PushOk(s) && Next(s, s')
    ensures BoundKept(s, s')
  {
    if w: nat :| WorkerStep(s, w, s') {
      WorkerBound(s, w, s');
    } else if p: nat :| ProducerStep(s, p, s') {
      ProducerBound(s, p, s');
    } else {
      StopBound(s, s');
    }
  }

  /** While the pool runs the queue never grows beyond maxQueSize + 1 tasks; if it was longer, because tasks were added
      before start, it never grows at all until it is short enough. */
  lemma {:induction false} QueueBounded(run: seq<State>, j: nat, k: nat)
    requires IsRun(run) && j <= k < |run| && run[k].running
    ensures run[j].running && run[k].max == run[j].max
    ensures |run[k].queue| <= AtLeast(|run[j].queue|, run[j].max + 1)
    decreases k
  {
    if j == k {
    } else {
      assert PushOk(run[k - 1]) by { RunInv(run, k - 1); }
      assert StepAt(run, k);
      NextBound(run[k - 1], run[k]);
      QueueBounded(run, j, k - 1);
    }
  }

  /** Tasks leave the queue in the order they entered it, and each one is queued, held by a worker or done. */
  lemma TasksConserved(run: seq<State>, k: nat)
    requires IsRun(run) && k < |run|
    ensures var s := run[k];
            && s.taken <= s.pushed
            && s.queue == s.pushed[|s.taken|..]
            && multiset(s.pushed) == multiset(s.queue) + Held(s.workers) + s.done
  {
    RunInv(run, k);
    var s := run[k];
    assert multiset(s.taken + s.queue) == multiset(s.taken) + multiset(s.queue);
  }

  /** A thread that can take a step of its own, without a spurious wakeup or a new call. */
  predicate WorkerReady(s: State, w: nat) {
    && w < |s.workers|
    && !s.workers[w].WWait? && !s.workers[w].WExit?
    && (s.workers[w].WLock? || s.workers[w].WWoken? ==> s.owner == Free)
  }

  predicate ProducerReady(s: State, p: nat) {
    && p < |s.producers|
    && !s.producers[p].PWait? && !s.producers[p].PIdle?
    && (s.producers[p].PLock? || s.producers[p].PWoken? ==> s.owner == Free)
  }

  lemma ReadyWorkerSteps(s: State, w: nat)
    requires LateOk(s) && WorkerReady(s, w)
    ensures exists s' :: WorkerStep(s, w, s')
  {
    match s.workers[w]
    case WCheck =>
      assert WorkerStep(s, w, s.(workers := s.workers[w := if s.running then WLock else WExit]));
    case WLock =>
      assert WorkerStep(s, w, s.(owner := Worker(w), workers := s.workers[w := WTest(false)]));
    case WWoken(sig) =>
      assert WorkerStep(s, w, s.(owner := Worker(w), workers := s.workers[w := WTest(sig)]));
    case WTest(sig) =>
      assert WorkerStep(s, w, if s.queue == [] && s.running
                              then s.(owner := Free, workers := s.workers[w := WWait])
                              else s.(workers := s.workers[w := WPop(sig)]));
    case WPop(sig) =>
      assert WorkerStep(s, w, if s.queue != []
                              then s.(queue := s.queue[1..], taken := s.taken + [s.queue[0]],
                                      workers := s.workers[w := WNotify(s.queue[0])])
                              else s.(workers := s.workers[w := WUnlock(None)]));
    case WNotify(task) =>
      var ps' := SomeSignalFull(s.producers);
      assert WorkerStep(s, w, s.(producers := ps', workers := s.workers[w := WUnlock(Some(task))]));
    case WUnlock(None) =>
      assert WorkerStep(s, w, s.(owner := Free, workers := s.workers[w := WCheck]));
    case WUnlock(Some(task)) =>
      assert WorkerStep(s, w, s.(owner := Free, workers := s.workers[w := WRun(task)],
                                 late := s.late[w := s.late[w] + if s.running then 0 else 1]));
    case WRun(task) =>
      assert WorkerStep(s, w, s.(workers := s.workers[w := WCheck], done := s.done + multiset{task}));
  }

  lemma SomeSignalFull(ps: seq<ProducerPC>) returns (ps': seq<ProducerPC>)
    ensures SignalFull(ps, ps')
  {
    if p :| 0 <= p < |ps| && ps[p].PWait? {
      ps' := ps[p := PWoken(ps[p].task, true)];
    } else {
      ps' := ps;
    }
  }

  lemma SomeSignalEmpty(ws: seq<WorkerPC>) returns (ws': seq<WorkerPC>)
    ensures SignalEmpty(ws, ws')
  {
    if w :| 0 <= w < |ws| && ws[w].WWait? {
      ws' := ws[w := WWoken(true)];
    } else {
      ws' := ws;
    }
  }

  lemma ReadyProducerSteps(s: State, p: nat)
    requires ProducerReady(s, p)
    ensures exists s' :: ProducerStep(s, p, s')
  {
    match s.producers[p]
    case PLock(task) =>
      assert ProducerStep(s, p, s.(owner := Producer(p), producers := s.producers[p := PTest(task, false)]));
    case PWoken(task, sig) =>
      assert ProducerStep(s, p, s.(owner := Producer(p), producers := s.producers[p := PTest(task, sig)]));
    case PTest(task, sig) =>
      assert ProducerStep(s, p, if |s.queue| > s.max && s.running
                                then s.(owner := Free, producers := s.producers[p := PWait(task)])
                                else s.(producers := s.producers[p := PPush(task, sig)]));
    case PPush(task, sig) =>
      assert ProducerStep(s, p, s.(queue := s.queue + [task], pushed := s.pushed + [task],
                                   producers := s.producers[p := PNotify]));
    case PNotify =>
      var ws' := SomeSignalEmpty(s.workers);
      assert ProducerStep(s, p, s.(workers := ws', producers := s.producers[p := PUnlock]));
    case PUnlock =>
      assert ProducerStep(s, p, s.(owner := Free, producers := s.producers[p := PIdle]));
  }

  /** Some thread can take a real step. */
  ghost predicate Progress(s: State) {
    || (exists w: nat :: WorkerReady(s, w) && exists s' :: WorkerStep(s, w, s'))
    || (exists p: nat :: ProducerReady(s, p) && exists s' :: ProducerStep(s, p, s'))
    || (HoldsS(s.stop) && exists s' :: StopStep(s, s'))
  }

  lemma OwnerProgress(s: State)
    requires Inv(s) && s.owner != Free
    ensures Progress(s)
  {
    match s.owner
    case Worker(w) =>
      assert WorkerReady(s, w);
      ReadyWorkerSteps(s, w);
    case Producer(p) =>
      assert ProducerReady(s, p);
      ReadyProducerSteps(s, p);
    case Stopper =>
      match s.stop
      case SClear => assert StopStep(s, s.(running := false, stop := SBroadcast));
      case SBroadcast => assert StopStep(s, s.(workers := WakeAll(s.workers), stop := SUnlock));
      case SUnlock => assert StopStep(s, s.(owner := Free, stop := SJoin));
  }

  /** Deadlock freedom: while the pool runs, a queued task or an unfinished addTask means that some thread
      can step, even if no thread ever wakes spuriously. */
  lemma PoolNeverStuck(run: seq<State>, k: nat)
    requires IsRun(run) && k < |run| && run[k].running
    requires run[k].queue != [] || exists p | 0 <= p < |run[k].producers| :: !run[k].producers[p].PIdle?
    ensures Progress(run[k])
  {
    RunInv(run, k);
    var s := run[k];
    if s.owner != Free {
      OwnerProgress(s);
    } else if w: nat :| w < |s.workers| && !s.workers[w].WWait? {
      assert WorkerReady(s, w);
      ReadyWorkerSteps(s, w);
    } else {
      assert s.workers[0].WWait?;
      if Signalled(s.workers) > 0 {
        SignalledPositive(s.workers);
      }
      assert s.queue == [];
      if SignalledP(s.producers) > 0 {
        SignalledPPositive(s.producers);
      }
      var p: nat :| p < |s.producers| && !s.producers[p].PIdle? && !s.producers[p].PWait?;
      assert ProducerReady(s, p);
      ReadyProducerSteps(s, p);
    }
  }

  /** After stop has broadcast, no worker is asleep on _empty, every worker starts at most one more task,
      and until all workers have exited some thread can step. */
  lemma StopDrains(run: seq<State>, k: nat)
    requires IsRun(run) && k < |run| && (run[k].stop.SUnlock? || run[k].stop.SJoin?)
    ensures var s := run[k];
            && |s.late| == |s.workers|
            && (forall w: nat | w < |s.workers| :: !s.workers[w].WWait? && s.late[w] <= 1)
            && (Progress(s) || forall w: nat | w < |s.workers| :: s.workers[w] == WExit)
  {
    RunInv(run, k);
    var s := run[k];
    if s.owner != Free {
      OwnerProgress(s);
    } else if w: nat :| w < |s.workers| && s.workers[w] != WExit {
      assert WorkerReady(s, w);
      ReadyWorkerSteps(s, w);
    }
  }

  /** An upper bound on the steps a worker has left once isRunning is false and nobody sleeps on _empty. */
  function StepsLeft(pc: WorkerPC): (n: nat)
    ensures n <= 7
  {
    match pc
    case WExit => 0
    case WCheck => 1
    case WRun(_) => 2
    case WUnlock(_) => 3
    case WNotify(_) => 4
    case WPop(_) => 5
    case WTest(_) => 6
    case _ => 7
  }

  /** How many steps of run[from..to] changed what worker w executes next. */
  ghost function StepsTaken(run: seq<State>, w: nat, from: nat, to: nat): nat
    requires from <= to < |run|
  {
    if from == to then 0
    else StepsTaken(run, w, from, to - 1) + if PcOf(run[to], w) == PcOf(run[to - 1], w) then 0 else 1
  }

  ghost function PcOf(s: State, w: nat): WorkerPC {
    if w < |s.workers| then s.workers[w] else WExit
  }

  ghost predicate PastBroadcast(s: State) {
    s.stop.SUnlock? || s.stop.SJoin? || s.stop.SDone?
  }

  /** From s to s' worker w did nothing or used up one of its remaining steps. */
  ghost predicate Spends(s: State, s': State, w: nat) {
    PcOf(s', w) == PcOf(s, w) || StepsLeft(PcOf(s', w)) < StepsLeft(PcOf(s, w))
  }

  lemma WorkerSpends(s: State, v: nat, s': State, w: nat)
    requires StopOk(s) && PastBroadcast(s) && WorkerStep(s, v, s')
    ensures PastBroadcast(s') && Spends(s, s', w)
  {
    assert s'.workers == s.workers[v := s'.workers[v]];
  }

  lemma ProducerSpends(s: State, p: nat, s': State, w: nat)
    requires StopOk(s) && PastBroadcast(s) && ProducerStep(s, p, s')
    ensures PastBroadcast(s') && Spends(s, s', w)
  {}

  lemma NextSpends(s: State, s': State, w: nat)
    requires StopOk(s) && PastBroadcast(s) && Next(s, s')
    ensures PastBroadcast(s') && Spends(s, s', w)
  {
    if v: nat :| WorkerStep(s, v, s') {
      WorkerSpends(s, v, s', w);
    } else if p: nat :| ProducerStep(s, p, s') {
      ProducerSpends(s, p, s', w);
    }
  }

  /** stop terminates: from the broadcast on, in every interleaving, each worker takes at most seven more steps. */
  lemma {:induction false} StopTerminates(run: seq<State>, w: nat, j: nat, k: nat)
    requires IsRun(run) && j <= k < |run| && PastBroadcast(run[j])
    ensures PastBroadcast(run[k])
    ensures StepsTaken(run, w, j, k) + StepsLeft(PcOf(run[k], w)) <= StepsLeft(PcOf(run[j], w)) <= 7
  {
    if j == k {
    } else {
      StopTerminates(run, w, j, k - 1);
      assert StopOk(run[k - 1]) by { RunInv(run, k - 1); }
      assert StepAt(run, k);
      NextSpends(run[k - 1], run[k], w);
    }
  }

  // ---------------------------------------------------------------- tasks started late

  /** Step m starts a task on worker w although isRunning is cleared. */
  ghost predicate StartsLate(run: seq<State>, w: nat, m: nat) {
    && m + 1 < |run| && !run[m].running && w < |run[m].workers| && w < |run[m + 1].workers|
    && run[m].workers[w].WUnlock? && run[m + 1].workers[w].WRun?
  }

  /** How many tasks worker w has started late up to state k. */
  ghost function LateStarts(run: seq<State>, w: nat, k: nat): nat
    requires k < |run|
  {
    if k == 0 then 0 else LateStarts(run, w, k - 1) + if StartsLate(run, w, k - 1) then 1 else 0
  }

  /** The step from s to s' counts in late exactly if it starts a task on w late. */
  ghost predicate CountsLate(s: State, s': State, w: nat) {
    && |s'.workers| == |s.workers| && |s'.late| == |s.late|
    && (w < |s.workers| == |s.late| ==>
          s'.late[w] == s.late[w] + if !s.running && s.workers[w].WUnlock? && s'.workers[w].WRun? then 1 else 0)
  }

  lemma WorkerCounts(s: State, v: nat, s': State, w: nat)
    requires WorkerStep(s, v, s')
    ensures CountsLate(s, s', w)
  {}

  lemma ProducerCounts(s: State, p: nat, s': State, w: nat)
    requires ProducerStep(s, p, s')
    ensures CountsLate(s, s', w)
  {}

  lemma StopCounts(s: State, s': State, w: nat)
    requires StopStep(s, s')
    ensures CountsLate(s, s', w)
  {}

  lemma NextCounts(s: State, s': State, w: nat)
    requires Next(s, s')
    ensures CountsLate(s, s', w)
  {
    if v: nat :| WorkerStep(s, v, s') {
      WorkerCounts(s, v, s', w);
    } else if p: nat :| ProducerStep(s, p, s') {
      ProducerCounts(s, p, s', w);
    } else {
      StopCounts(s, s', w);
    }
  }

  lemma {:induction false} LateIsCounted(run: seq<State>, w: nat, k: nat)
    requires IsRun(run) && k < |run| && w < |run[k].workers|
    ensures |run[k].late| == |run[k].workers| && LateStarts(run, w, k) == run[k].late[w]
    decreases k
  {
    RunInv(run, k);
    if k == 0 {
    } else {
      assert StepAt(run, k);
      NextCounts(run[k - 1], run[k], w);
      LateIsCounted(run, w, k - 1);
    }
  }

  /** In every run each worker starts at most one task after isRunning was cleared. */
  lemma AtMostOneLateTask(run: seq<State>, w: nat, k: nat)
    requires IsRun(run) && k < |run| && w < |run[k].workers|
    ensures LateStarts(run, w, k) <= 1
  {
    LateIsCounted(run, w, k);
    RunInv(run, k);
  }
}
