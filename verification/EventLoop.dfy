/** The event loop's cross-thread functor queue and its eventfd wakeup: the loop thread, any number of
    other threads calling runInLoop or exit, and functors that call exit on the loop thread, interleaved
    in any order. Each access to the queue (under its mutex), to `quit` and to the eventfd is one step. */
module EventLoop {

  type Functor = nat

  /** The largest value an eventfd counter can hold; a non-blocking write beyond it fails. */
  const EVENTFD_MAX := 0xffff_ffff_ffff_fffe

  /** What the loop thread executes next. */
  datatype LoopPC =
    | Test                           // while(!quit)
    | Poll                           // inside epoll_wait
    | Process(wakeup: bool)          // processing active dispatchers; is the eventfd still among them?
    | Swap                           // temp.swap(non_io_functors)
    | Run(rest: seq<Functor>)        // functors of temp still to run
    | Exited

  /** What another thread executes next. */
  datatype CallerPC =
    | Idle
    | Push(f: Functor)               // runInLoop: push under the mutex
    | SetQuit                        // exit: quit = true
    | WriteForPush                   // runInLoop: write to the eventfd
    | WriteForQuit                   // exit: write to the eventfd

  /** `posted` and `ran` are history: the functors pushed and the functors run so far, in order. */
  datatype State = State(
    pending: seq<Functor>,
    counter: nat,
    quit: bool,
    loop: LoopPC,
    callers: seq<CallerPC>,
    posted: seq<Functor>,
    ran: seq<Functor>)

  ghost predicate Init(s: State) {
    && s.pending == [] && s.counter == 0 && !s.quit && s.loop == Test
    && s.posted == [] && s.ran == []
    && forall c | 0 <= c < |s.callers| :: s.callers[c] == Idle
  }

  /** The loop thread. epoll_wait returns when the eventfd is readable, when another descriptor is
      ready or on its timeout, so it may return at any moment; it reports the eventfd only if readable. */
  ghost predicate LoopStep(s: State, s': State) {
    match s.loop
    case Test => s' == s.(loop := if s.quit then Exited else Poll)
    case Poll => exists wakeup :: (wakeup ==> s.counter > 0) && s' == s.(loop := Process(wakeup))
    case Process(true) =>
      || s' == s.(loop := Process(false), counter := 0)
      || s' == s.(quit := true)             // another dispatcher's callback calls exit
    case Process(false) =>
      || s' == s.(loop := Swap)
      || s' == s.(quit := true)
    case Swap => s' == s.(loop := Run(s.pending), pending := [])
    case Run(rest) =>
      if rest == [] then s' == s.(loop := Test)
      else
        || s' == s.(loop := Run(rest[1..]), ran := s.ran + [rest[0]])
        || s' == s.(loop := Run(rest[1..]), ran := s.ran + [rest[0]], quit := true)  // the functor calls exit
    case Exited => false
  }

  function Written(counter: nat): nat {
    if counter + 1 <= EVENTFD_MAX then counter + 1 else counter
  }

  ghost predicate CallerStep(s: State, c: nat, s': State) {
    && c < |s.callers|
    && match s.callers[c]
       case Idle =>
         || (exists f :: s' == s.(callers := s.callers[c := Push(f)]))
         || s' == s.(callers := s.callers[c := SetQuit])
       case Push(f) =>
         s' == s.(pending := s.pending + [f], posted := s.posted + [f], callers := s.callers[c := WriteForPush])
       case SetQuit =>
         s' == s.(quit := true, callers := s.callers[c := WriteForQuit])
       case WriteForPush =>
         s' == s.(counter := Written(s.counter), callers := s.callers[c := Idle])
       case WriteForQuit =>
         s' == s.(counter := Written(s.counter), callers := s.callers[c := Idle])
  }

  ghost predicate Next(s: State, s': State) {
    LoopStep(s, s') || exists c: nat :: CallerStep(s, c, s')
  }

  ghost predicate StepAt(run: seq<State>, k: nat) {
    0 < k < |run| && Next(run[k - 1], run[k])
  }

  ghost predicate IsRun(run: seq<State>) {
    && |run| > 0
    && Init(run[0])
    && forall k: nat | 0 < k < |run| :: StepAt(run, k)
  }

  // ---------------------------------------------------------------- the invariant

  /** Functors taken from the queue and not run yet. */
  function Taken(s: State): seq<Functor> {
    if s.loop.Run? then s.loop.rest else []
  }

  ghost predicate SomeCaller(s: State, pc: CallerPC) {
    exists c | 0 <= c < |s.callers| :: s.callers[c] == pc
  }

  /** The loop will look at the queue before it can block again. */
  predicate AboutToSwap(s: State) {
    s.loop == Process(false) || s.loop == Swap
  }

  ghost predicate Inv(s: State) {
    && s.posted == s.ran + Taken(s) + s.pending
    && (s.pending != [] && !AboutToSwap(s) ==> s.counter > 0 || SomeCaller(s, WriteForPush))
    && (s.quit && s.loop == Poll ==> s.counter > 0 || SomeCaller(s, WriteForQuit))
    && (s.loop == Process(true) ==> s.counter > 0)
  }

  lemma LoopInv(s: State, s': State)
    requires Inv(s) && LoopStep(s, s')
    ensures Inv(s')
  {}

  lemma CallerInv(s: State, c: nat, s': State)
    requires Inv(s) && CallerStep(s, c, s')
    ensures Inv(s')
  {
    var pc := s'.callers[c];
    assert s'.callers == s.callers[c := pc];
    forall d | 0 <= d < |s.callers| && d != c ensures s'.callers[d] == s.callers[d] {}
    assert s'.callers[c] == pc;
    assert SomeCaller(s', pc);
    forall q | SomeCaller(s, q) && q != s.callers[c] ensures SomeCaller(s', q) {
      var d :| 0 <= d < |s.callers| && s.callers[d] == q;
      assert s'.callers[d] == q;
    }
  }

  lemma NextInv(s: State, s': State)
    requires Inv(s) && Next(s, s')
    ensures Inv(s')
  {
    if c: nat :| CallerStep(s, c, s') {
      CallerInv(s, c, s');
    } else {
      LoopInv(s, s');
    }
  }

  lemma {:induction false} RunInv(run: seq<State>, k: nat)
    requires IsRun(run) && k < |run|
    ensures Inv(run[k])
  {
    if k == 0 {
    } else {
      RunInv(run, k - 1);
      assert StepAt(run, k);
      NextInv(run[k - 1], run[k]);
    }
  }

  // ---------------------------------------------------------------- what it means

  /** Functors posted by other threads run at most once and in the order they were pushed; those not run
      yet are the ones the loop has taken, followed by the ones still queued. */
  lemma PostedOrder(run: seq<State>, k: nat)
    requires IsRun(run) && k < |run|
    ensures var s := run[k]; s.posted == s.ran + Taken(s) + s.pending
  {
    RunInv(run, k);
  }

  /** The loop thread is blocked in epoll_wait and only the timeout or unrelated input could wake it. */
  predicate Blocked(s: State) {
    s.loop == Poll && s.counter == 0
  }

  /** No lost wakeup: the loop never blocks on work, or on a request to quit, unless the caller that
      brought it has not yet made its eventfd write. */
  lemma NeverBlockedOnWork(run: seq<State>, k: nat)
    requires IsRun(run) && k < |run| && Blocked(run[k])
    ensures run[k].pending != [] ==> SomeCaller(run[k], WriteForPush)
    ensures run[k].quit ==> SomeCaller(run[k], WriteForQuit)
  {
    RunInv(run, k);
  }

  /** The eventfd counter never passes its limit, so a failed write finds the eventfd readable already. */
  lemma {:induction false} CounterBounded(run: seq<State>, k: nat)
    requires IsRun(run) && k < |run|
    ensures run[k].counter <= 0xffff_ffff_ffff_fffe
  {
    if k == 0 {
    } else {
      CounterBounded(run, k - 1);
      assert StepAt(run, k);
    }
  }

  lemma RanGrows(s: State, s': State)
    requires Inv(s) && Next(s, s') && s.loop != Swap
    ensures s.ran + Taken(s) <= s'.ran + Taken(s')
  {}

  lemma SwapTakesAll(s: State, s': State)
    requires Inv(s) && Next(s, s') && s.loop == Swap
    ensures s.ran + Taken(s) <= s'.ran + Taken(s')
    ensures s'.loop.Run? ==> s'.ran + Taken(s') == s.posted
  {}

  /** One swap serves everything: whatever had been posted when the loop swapped the queue stays, from then
      on and in every interleaving, run or about to be run, in order; once the loop is back at its test
      all of it has run. */
  lemma {:induction false} SwapServesAll(run: seq<State>, j: nat, k: nat)
    requires IsRun(run) && j < k < |run| && run[j].loop == Swap && run[j + 1].loop.Run?
    ensures run[j].posted <= run[k].ran + Taken(run[k])
    ensures !run[k].loop.Run? ==> run[j].posted <= run[k].ran
  {
    RunInv(run, k - 1);
    assert StepAt(run, k);
    if k == j + 1 {
      SwapTakesAll(run[j], run[k]);
    } else {
      SwapServesAll(run, j, k - 1);
      if run[k - 1].loop == Swap {
        SwapTakesAll(run[k - 1], run[k]);
      } else {
        RanGrows(run[k - 1], run[k]);
      }
    }
  }

  // ---------------------------------------------------------------- the loop keeps running

  /** The loop thread always has a step until it has left the loop. */
  lemma LoopCanStep(s: State)
    requires s.loop != Exited
    ensures exists s' :: LoopStep(s, s')
  {
    match s.loop
    case Test => assert LoopStep(s, s.(loop := if s.quit then Exited else Poll));
    case Poll => assert LoopStep(s, s.(loop := Process(false)));
    case Process(true) => assert LoopStep(s, s.(loop := Process(false), counter := 0));
    case Process(false) => assert LoopStep(s, s.(loop := Swap));
    case Swap => assert LoopStep(s, s.(loop := Run(s.pending), pending := []));
    case Run(rest) =>
      assert LoopStep(s, if rest == [] then s.(loop := Test)
                         else s.(loop := Run(rest[1..]), ran := s.ran + [rest[0]]));
  }

  /** A written eventfd can be reported and read, which makes it unreadable again. */
  lemma WakeupHandled(s: State)
    requires s.loop == Poll && s.counter > 0
    ensures exists s1, s2 :: LoopStep(s, s1) && LoopStep(s1, s2) && s2 == s.(loop := Process(false), counter := 0)
  {
    var s1, s2 := s.(loop := Process(true)), s.(loop := Process(false), counter := 0);
    assert LoopStep(s, s1) && LoopStep(s1, s2);
  }

  /** quit stays set; whoever asked for it by exit has set it; and the loop is left only then. */
  ghost predicate QuitOk(s: State) {
    && (s.loop == Exited ==> s.quit)
    && (SomeCaller(s, WriteForQuit) ==> s.quit)
  }

  lemma NextQuit(s: State, s': State)
    requires QuitOk(s) && Next(s, s')
    ensures QuitOk(s') && (s.quit ==> s'.quit)
  {
    if c: nat :| CallerStep(s, c, s') {
      assert s'.callers == s.callers[c := s'.callers[c]];
      if d :| 0 <= d < |s'.callers| && s'.callers[d] == WriteForQuit && d != c {
        assert s.callers[d] == WriteForQuit;
        assert SomeCaller(s, WriteForQuit);
      }
    }
  }

  lemma {:induction false} RunQuit(run: seq<State>, k: nat)
    requires IsRun(run) && k < |run|
    ensures QuitOk(run[k])
  {
    if k == 0 {
    } else {
      RunQuit(run, k - 1);
      assert StepAt(run, k);
      NextQuit(run[k - 1], run[k]);
    }
  }

  /** The loop is left only after exit was called, and exit is never forgotten. */
  lemma ExitedOnlyOnQuit(run: seq<State>, k: nat)
    requires IsRun(run) && k < |run|
    ensures run[k].loop == Exited ==> run[k].quit
    ensures SomeCaller(run[k], WriteForQuit) ==> run[k].quit
    ensures 0 < k && run[k - 1].quit ==> run[k].quit
  {
    RunQuit(run, k);
    if 0 < k {
      RunQuit(run, k - 1);
      assert StepAt(run, k);
      NextQuit(run[k - 1], run[k]);
    }
  }

  /** How many steps of its own the loop is from its next swap. */
  function ToSwap(loop: LoopPC): nat {
    match loop
    case Swap => 0
    case Process(false) => 1
    case Process(true) => 2
    case Poll => 3
    case Test => 4
    case Run(rest) => |rest| + 5
    case Exited => 0
  }

  /** How many steps of its own the loop is from having run the first n functors posted. */
  function ToServe(s: State, n: nat): nat {
    if n <= |s.ran| then 0
    else if n <= |s.ran| + |Taken(s)| then n - |s.ran|
    else ToSwap(s.loop) + 1 + (n - |s.ran| - |Taken(s)|)
  }

  lemma LoopServes(s: State, s': State, n: nat)
    requires Inv(s) && LoopStep(s, s') && !s'.quit && n <= |s.posted|
    ensures s'.loop != s.loop && s'.posted == s.posted
    ensures ToServe(s, n) > 0 ==> ToServe(s', n) < ToServe(s, n)
    ensures ToServe(s, n) == 0 ==> ToServe(s', n) == 0
  {}

  lemma CallerServes(s: State, c: nat, s': State, n: nat)
    requires Inv(s) && CallerStep(s, c, s') && n <= |s.posted|
    ensures s'.loop == s.loop && s.posted <= s'.posted && ToServe(s', n) == ToServe(s, n)
  {}

  /** How many steps from j to k were the loop's own. */
  ghost function LoopSteps(run: seq<State>, j: nat, k: nat): nat
    requires j <= k < |run|
    decreases k
  {
    if j == k then 0 else LoopSteps(run, j, k - 1) + if run[k].loop == run[k - 1].loop then 0 else 1
  }

  lemma {:induction false} ServeCounts(run: seq<State>, j: nat, k: nat)
    requires IsRun(run) && j <= k < |run| && !run[k].quit
    ensures !run[j].quit && run[j].posted <= run[k].posted
    ensures var n := |run[j].posted|; var d := ToServe(run[j], n);
            ToServe(run[k], n) <= if LoopSteps(run, j, k) <= d then d - LoopSteps(run, j, k) else 0
    decreases k
  {
    if j == k {
    } else {
      var s, s', n := run[k - 1], run[k], |run[j].posted|;
      assert StepAt(run, k);
      RunQuit(run, k - 1);
      NextQuit(s, s');
      ServeCounts(run, j, k - 1);
      RunInv(run, k - 1);
      if c: nat :| CallerStep(s, c, s') {
        CallerServes(s, c, s', n);
      } else {
        LoopServes(s, s', n);
      }
    }
  }

  /**
   * Every posted functor is served: unless quit is set, once the loop thread has taken that many steps of its own,
   * everything posted at j has run, in order.
   */
  lemma EverythingServed(run: seq<State>, j: nat, k: nat)
    requires IsRun(run) && j <= k < |run| && !run[k].quit
    requires LoopSteps(run, j, k) >= ToServe(run[j], |run[j].posted|)
    ensures run[j].posted <= run[k].ran
  {
    ServeCounts(run, j, k);
    RunInv(run, k);
    assert |run[j].posted| <= |run[k].ran|;
  }

  /** Swaps made between j and k. */
  ghost function Swaps(run: seq<State>, j: nat, k: nat): nat
    requires j <= k < |run|
    decreases k
  {
    if j == k then 0 else Swaps(run, j, k - 1) + if run[k - 1].loop == Swap && run[k].loop != Swap then 1 else 0
  }

  function SwapsAhead(loop: LoopPC): nat {
    if loop.Poll? || loop.Process? || loop.Swap? then 1 else 0
  }

  lemma QuitStep(s: State, s': State)
    requires s.quit && Next(s, s')
    ensures s'.quit
    ensures SwapsAhead(s'.loop) + (if s.loop == Swap && s'.loop != Swap then 1 else 0) <= SwapsAhead(s.loop)
  {}

  /** exit works: once quit is set the loop makes at most one more swap, and starts no further round. */
  lemma {:induction false} QuitEndsLoop(run: seq<State>, j: nat, k: nat)
    requires IsRun(run) && j <= k < |run| && run[j].quit
    ensures run[k].quit && Swaps(run, j, k) + SwapsAhead(run[k].loop) <= SwapsAhead(run[j].loop) <= 1
    decreases k
  {
    if j == k {
    } else {
      QuitEndsLoop(run, j, k - 1);
      assert StepAt(run, k);
      QuitStep(run[k - 1], run[k]);
    }
  }

  // ---------------------------------------------------------------- what the counter counts

  /** Step m writes to the eventfd. */
  ghost predicate WriteAt(run: seq<State>, m: nat) {
    m + 1 < |run| && run[m + 1].loop == run[m].loop && run[m].counter <= run[m + 1].counter
    && exists c | 0 <= c < |run[m].callers| ::
         run[m].callers[c] in {WriteForPush, WriteForQuit} && c < |run[m + 1].callers| && run[m + 1].callers[c] == Idle
  }

  /** Step m reads it. */
  ghost predicate DrainAt(run: seq<State>, m: nat) {
    m + 1 < |run| && run[m].loop == Process(true) && run[m + 1].loop == Process(false)
  }

  lemma CounterStep(run: seq<State>, m: nat)
    requires IsRun(run) && m + 1 < |run| && run[m + 1].counter > 0
    ensures !DrainAt(run, m) && (WriteAt(run, m) || run[m].counter > 0)
  {
    assert StepAt(run, m + 1);
    var s, s' := run[m], run[m + 1];
    if c: nat :| CallerStep(s, c, s') {
      if s.callers[c] in {WriteForPush, WriteForQuit} {
        assert s'.callers[c] == Idle;
      }
    }
  }

  /** The eventfd is readable only if somebody has written to it since it was last read: the loop does not spin. */
  lemma {:induction false} ReadableMeansWritten(run: seq<State>, k: nat) returns (m: nat)
    requires IsRun(run) && k < |run| && run[k].counter > 0
    ensures m < k && WriteAt(run, m) && forall i: nat | m <= i < k :: !DrainAt(run, i)
    decreases k
  {
    assert k > 0;
    CounterStep(run, k - 1);
    if WriteAt(run, k - 1) {
      m := k - 1;
    } else {
      m := ReadableMeansWritten(run, k - 1);
    }
  }
}
