/** The dining-philosophers monitor, for a ring of any size of at least two, as a
    transition system in which every access to a shared variable is one step. */
module Philosophers {

  datatype Phase = THINKING | EATING | HUNGRY

  /** Which call of `test` is running: the one in take_fork or one of the two in put_fork. */
  datatype Call = FromTake | FromPutLeft | FromPutRight

  /** Where inside `test` the caller is: three reads, then the two writes. */
  datatype Stage = ReadSelf | ReadLeft | ReadRight | Grant | Signal

  /** What a philosopher executes next.
      Thinking  - Mutex.wait() of take_fork     Dining    - Mutex.wait() of put_fork
      TakeHeld  - states[i] = HUNGRY            PutHeld   - states[i] = THINKING
      Release   - Mutex.notify()                Await     - s[i].wait() */
  datatype PC =
    | Thinking
    | TakeHeld
    | Test(call: Call, stage: Stage)
    | TakeRelease
    | Await
    | Dining
    | PutHeld
    | PutRelease

  datatype State = State(states: seq<Phase>, mutex: nat, s: seq<nat>, pc: seq<PC>)

  function Left(i: nat, n: nat): (l: nat)
    requires i < n
    ensures l == (i - 1 + n) % n
  {
    if i == 0 then n - 1 else i - 1
  }

  function Right(i: nat, n: nat): (r: nat)
    requires i < n
    ensures r == (i + 1) % n
  {
    if i == n - 1 then 0 else i + 1
  }

  /** The philosopher whose turn to eat is being examined by a call of `test` made by i. */
  function Target(i: nat, call: Call, n: nat): (t: nat)
    requires i < n
    ensures t < n
  {
    match call
    case FromTake => i
    case FromPutLeft => Left(i, n)
    case FromPutRight => Right(i, n)
  }

  /** Where control goes when a call of `test` returns. */
  function AfterTest(call: Call): PC {
    match call
    case FromTake => TakeRelease
    case FromPutLeft => Test(FromPutRight, ReadSelf)
    case FromPutRight => PutRelease
  }

  ghost predicate Shape(st: State) {
    2 <= |st.states| == |st.s| == |st.pc|
  }

  ghost predicate Init(st: State) {
    && Shape(st)
    && st.mutex == 1
    && forall i | 0 <= i < |st.pc| :: st.states[i] == THINKING && st.s[i] == 0 && st.pc[i] == Thinking
  }

  /** A philosopher is blocked only at a semaphore whose count is zero. */
  ghost predicate CanStep(st: State, i: nat)
    requires Shape(st)
  {
    && i < |st.pc|
    && (st.pc[i] in {Thinking, Dining} ==> st.mutex > 0)
    && (st.pc[i] == Await ==> st.s[i] > 0)
  }

  function Goto(st: State, i: nat, pc: PC): State
    requires i < |st.pc|
  {
    st.(pc := st.pc[i := pc])
  }

  /** One step of philosopher i inside `test`. */
  ghost function TestStep(st: State, i: nat, call: Call, stage: Stage): State
    requires Shape(st) && i < |st.pc|
  {
    var n := |st.pc|;
    var t := Target(i, call, n);
    match stage
    case ReadSelf =>
      Goto(st, i, if st.states[t] == HUNGRY then Test(call, ReadLeft) else AfterTest(call))
    case ReadLeft =>
      Goto(st, i, if st.states[Left(t, n)] != EATING then Test(call, ReadRight) else AfterTest(call))
    case ReadRight =>
      Goto(st, i, if st.states[Right(t, n)] != EATING then Test(call, Grant) else AfterTest(call))
    case Grant =>
      Goto(st, i, Test(call, Signal)).(states := st.states[t := EATING])
    case Signal =>
      Goto(st, i, AfterTest(call)).(s := st.s[t := st.s[t] + 1])
  }

  /** One step of philosopher i. */
  ghost function Step(st: State, i: nat): State
    requires Shape(st) && CanStep(st, i)
  {
    match st.pc[i]
    case Thinking => Goto(st, i, TakeHeld).(mutex := st.mutex - 1)
    case TakeHeld => Goto(st, i, Test(FromTake, ReadSelf)).(states := st.states[i := HUNGRY])
    case Test(call, stage) => TestStep(st, i, call, stage)
    case TakeRelease => Goto(st, i, Await).(mutex := st.mutex + 1)
    case Await => Goto(st, i, Dining).(s := st.s[i := st.s[i] - 1])
    case Dining => Goto(st, i, PutHeld).(mutex := st.mutex - 1)
    case PutHeld => Goto(st, i, Test(FromPutLeft, ReadSelf)).(states := st.states[i := THINKING])
    case PutRelease => Goto(st, i, Thinking).(mutex := st.mutex + 1)
  }

  ghost predicate Next(st: State, st': State) {
    && Shape(st)
    && exists i: nat :: CanStep(st, i) && st' == Step(st, i)
  }

  ghost predicate StepAt(run: seq<State>, k: nat) {
    0 < k < |run| && Next(run[k - 1], run[k])
  }

  /** A run: any interleaving of any length. */
  ghost predicate IsRun(run: seq<State>) {
    && |run| > 0
    && Init(run[0])
    && forall k: nat | 0 < k < |run| :: StepAt(run, k)
  }

  // ---------------------------------------------------------------- the invariant

  predicate Critical(pc: PC) {
    !(pc.Thinking? || pc.Await? || pc.Dining?)
  }

  ghost predicate MutexOk(st: State)
    requires Shape(st)
  {
    && st.mutex <= 1
    && (forall i, j | 0 <= i < |st.pc| && 0 <= j < |st.pc| && Critical(st.pc[i]) && Critical(st.pc[j]) :: i == j)
    && (st.mutex == 0 <==> exists i | 0 <= i < |st.pc| :: Critical(st.pc[i]))
  }

  /** What holds of philosopher i's own variables at each of its program points. */
  ghost predicate LocalOk(st: State, i: nat)
    requires Shape(st) && i < |st.pc|
  {
    match st.pc[i]
    case Thinking => st.states[i] == THINKING && st.s[i] == 0
    case TakeHeld => st.states[i] == THINKING && st.s[i] == 0
    case Test(FromTake, stage) => st.s[i] == 0 && st.states[i] == (if stage == Signal then EATING else HUNGRY)
    case Test(_, _) => st.states[i] == THINKING && st.s[i] == 0
    case TakeRelease => (st.states[i] == HUNGRY && st.s[i] == 0) || (st.states[i] == EATING && st.s[i] == 1)
    case Await =>
      || (st.states[i] == HUNGRY && st.s[i] == 0)
      || (st.states[i] == EATING && st.s[i] == if BeingSignalled(st, i) then 0 else 1)
    case Dining => st.states[i] == EATING && st.s[i] == 0
    case PutHeld => st.states[i] == EATING && st.s[i] == 0
    case PutRelease => st.states[i] == THINKING && st.s[i] == 0
  }

  /** Philosopher k has granted t its forks and is about to notify t's semaphore. */
  ghost predicate Signals(st: State, k: nat, t: nat)
    requires Shape(st) && k < |st.pc|
  {
    st.pc[k].Test? && st.pc[k].stage == Signal && Target(k, st.pc[k].call, |st.pc|) == t
  }

  ghost predicate BeingSignalled(st: State, t: nat)
    requires Shape(st)
  {
    exists k: nat | k < |st.pc| :: Signals(st, k, t)
  }

  /** What the reads made so far inside `test` have established about its target. */
  ghost predicate TestOk(st: State, i: nat)
    requires Shape(st) && i < |st.pc|
  {
    st.pc[i].Test? ==>
      var n := |st.pc|;
      var t := Target(i, st.pc[i].call, n);
      && (st.pc[i].stage in {ReadLeft, ReadRight, Grant} ==> st.states[t] == HUNGRY)
      && (st.pc[i].stage in {ReadRight, Grant} ==> st.states[Left(t, n)] != EATING)
      && (st.pc[i].stage == Grant ==> st.states[Right(t, n)] != EATING)
      && (st.pc[i].stage == Signal ==> st.states[t] == EATING && st.s[t] == 0
                                       && (st.pc[i].call != FromTake ==> st.pc[t] == Await))
  }

  ghost predicate Exclusion(st: State)
    requires Shape(st)
  {
    forall i: nat | i < |st.pc| && st.states[i] == EATING :: st.states[Right(i, |st.pc|)] != EATING
  }

  /** The holder k of Mutex still has a complete decision about i ahead of it. */
  ghost predicate WillDecide(st: State, k: nat, i: nat)
    requires Shape(st) && k < |st.pc|
  {
    var n := |st.pc|;
    && st.pc[k].Test?
    && match st.pc[k].call
       case FromTake => st.pc[k].stage != Signal && i == k
       case FromPutLeft => i == Right(k, n) || (st.pc[k].stage != Signal && i == Left(k, n))
       case FromPutRight => st.pc[k].stage != Signal && i == Right(k, n)
  }

  ghost predicate NeighbourEats(st: State, i: nat)
    requires Shape(st) && i < |st.pc|
  {
    st.states[Left(i, |st.pc|)] == EATING || st.states[Right(i, |st.pc|)] == EATING
  }

  ghost predicate HungryOk(st: State, i: nat)
    requires Shape(st) && i < |st.pc|
  {
    st.states[i] == HUNGRY ==> NeighbourEats(st, i) || exists k: nat | k < |st.pc| :: WillDecide(st, k, i)
  }

  ghost predicate Inv(st: State) {
    && Shape(st)
    && MutexOk(st)
    && Exclusion(st)
    && forall i: nat | i < |st.pc| :: LocalOk(st, i) && TestOk(st, i) && HungryOk(st, i)
  }

  // ---------------------------------------------------------------- every step keeps it

  lemma InitInv(st: State)
    requires Init(st)
    ensures Inv(st)
  {}

  lemma StepInv(st: State, i: nat)
    requires Inv(st) && CanStep(st, i)
    ensures Inv(Step(st, i))
  {
    var st' := Step(st, i);
    match st.pc[i]
    case Thinking => LockStep(st, i);
    case Dining => LockStep(st, i);
    case TakeRelease => ReleaseStep(st, i);
    case PutRelease => ReleaseStep(st, i);
    case Await => AwaitStep(st, i);
    case TakeHeld => TakeStep(st, i);
    case PutHeld => PutStep(st, i);
    case Test(call, stage) =>
      if stage == Grant {
        GrantStep(st, i);
      } else if stage == Signal {
        SignalStep(st, i);
      } else {
        ReadStep(st, i);
      }
  }

  lemma LockStep(st: State, i: nat)
    requires Inv(st) && CanStep(st, i) && st.pc[i] in {Thinking, Dining}
    ensures Inv(Step(st, i))
  {
    var st' := Step(st, i);
    assert MutexOk(st') by { assert Critical(st'.pc[i]); }
    forall j: nat | j < |st.pc| ensures LocalOk(st', j) && TestOk(st', j) && HungryOk(st', j) {
      assert LocalOk(st, j) && TestOk(st, j) && HungryOk(st, j);
      assert forall k: nat | k < |st.pc| :: !Signals(st, k, j) && !Signals(st', k, j);
      assert forall k: nat | k < |st.pc| :: !WillDecide(st, k, j);
    }
  }

  lemma ReleaseStep(st: State, i: nat)
    requires Inv(st) && CanStep(st, i) && st.pc[i] in {TakeRelease, PutRelease}
    ensures Inv(Step(st, i))
  {
    var st' := Step(st, i);
    assert Critical(st.pc[i]);
    forall j: nat | j < |st.pc| ensures LocalOk(st', j) && TestOk(st', j) && HungryOk(st', j) {
      assert LocalOk(st, j) && TestOk(st, j) && HungryOk(st, j);
      assert forall k: nat | k < |st.pc| :: !Signals(st, k, j) && !Signals(st', k, j);
      assert forall k: nat | k < |st.pc| :: !WillDecide(st, k, j);
    }
  }

  lemma AwaitStep(st: State, i: nat)
    requires Inv(st) && CanStep(st, i) && st.pc[i] == Await
    ensures Inv(Step(st, i))
  {
    var st' := Step(st, i);
    assert forall j | 0 <= j < |st.pc| :: Critical(st.pc[j]) == Critical(st'.pc[j]);
    assert LocalOk(st, i);
    forall j: nat | j < |st.pc| ensures LocalOk(st', j) && TestOk(st', j) && HungryOk(st', j) {
      assert LocalOk(st, j) && TestOk(st, j) && HungryOk(st, j);
      assert forall k: nat | k < |st.pc| :: Signals(st, k, j) == Signals(st', k, j);
      assert forall k: nat | k < |st.pc| :: WillDecide(st, k, j) == WillDecide(st', k, j);
    }
  }

  lemma TakeKeepsLocal(st: State, i: nat, j: nat)
    requires Inv(st) && CanStep(st, i) && st.pc[i] == TakeHeld && j < |st.pc|
    ensures LocalOk(Step(st, i), j) && TestOk(Step(st, i), j)
  {
    var st' := Step(st, i);
    assert Critical(st.pc[i]);
    assert LocalOk(st, i) && LocalOk(st, j) && TestOk(st, j);
    assert forall k: nat | k < |st.pc| :: !Signals(st, k, j) && !Signals(st', k, j);
  }

  lemma TakeKeepsHungry(st: State, i: nat, j: nat)
    requires Inv(st) && CanStep(st, i) && st.pc[i] == TakeHeld && j < |st.pc|
    ensures HungryOk(Step(st, i), j)
  {
    var st' := Step(st, i);
    assert Critical(st.pc[i]);
    assert LocalOk(st, i) && HungryOk(st, j);
    assert forall k: nat | k < |st.pc| :: !WillDecide(st, k, j);
    assert WillDecide(st', i, i);
  }

  lemma TakeStep(st: State, i: nat)
    requires Inv(st) && CanStep(st, i) && st.pc[i] == TakeHeld
    ensures Inv(Step(st, i))
  {
    var st' := Step(st, i);
    assert Critical(st.pc[i]) && Critical(st'.pc[i]);
    assert LocalOk(st, i);
    forall j: nat | j < |st.pc| ensures LocalOk(st', j) && TestOk(st', j) && HungryOk(st', j) {
      TakeKeepsLocal(st, i, j);
      TakeKeepsHungry(st, i, j);
    }
  }

  lemma PutKeepsLocal(st: State, i: nat, j: nat)
    requires Inv(st) && CanStep(st, i) && st.pc[i] == PutHeld && j < |st.pc|
    ensures LocalOk(Step(st, i), j) && TestOk(Step(st, i), j)
  {
    var st' := Step(st, i);
    assert Critical(st.pc[i]);
    assert LocalOk(st, i) && LocalOk(st, j) && TestOk(st, j);
    assert forall k: nat | k < |st.pc| :: !Signals(st, k, j) && !Signals(st', k, j);
  }

  lemma PutKeepsHungry(st: State, i: nat, j: nat)
    requires Inv(st) && CanStep(st, i) && st.pc[i] == PutHeld && j < |st.pc|
    ensures HungryOk(Step(st, i), j)
  {
    var st', n := Step(st, i), |st.pc|;
    assert Critical(st.pc[i]);
    assert LocalOk(st, i) && HungryOk(st, j);
    assert forall k: nat | k < n :: !WillDecide(st, k, j);
    assert WillDecide(st', i, Left(i, n)) && WillDecide(st', i, Right(i, n));
  }

  lemma PutStep(st: State, i: nat)
    requires Inv(st) && CanStep(st, i) && st.pc[i] == PutHeld
    ensures Inv(Step(st, i))
  {
    var st' := Step(st, i);
    assert Critical(st.pc[i]) && Critical(st'.pc[i]);
    assert LocalOk(st, i);
    forall j: nat | j < |st.pc| ensures LocalOk(st', j) && TestOk(st', j) && HungryOk(st', j) {
      PutKeepsLocal(st, i, j);
      PutKeepsHungry(st, i, j);
    }
  }

  predicate Reads(st: State, i: nat) {
    i < |st.pc| && st.pc[i].Test? && st.pc[i].stage in {ReadSelf, ReadLeft, ReadRight}
  }

  lemma ReadKeepsLocal(st: State, i: nat, j: nat)
    requires Inv(st) && CanStep(st, i) && Reads(st, i) && j < |st.pc|
    ensures LocalOk(Step(st, i), j) && TestOk(Step(st, i), j)
  {
    var st' := Step(st, i);
    assert Critical(st.pc[i]) && Critical(st'.pc[i]);
    assert LocalOk(st, j) && TestOk(st, j) && LocalOk(st, i) && TestOk(st, i);
    assert forall k: nat | k < |st.pc| :: !Signals(st, k, j) && !Signals(st', k, j);
    assert st'.states == st.states;
  }

  lemma ReadKeepsHungry(st: State, i: nat, j: nat)
    requires Inv(st) && CanStep(st, i) && Reads(st, i) && j < |st.pc|
    ensures HungryOk(Step(st, i), j)
  {
    var st' := Step(st, i);
    assert Critical(st.pc[i]) && Critical(st'.pc[i]);
    assert HungryOk(st, j) && LocalOk(st, i) && TestOk(st, i);
    assert forall k: nat | k < |st.pc| && k != i :: !WillDecide(st, k, j);
    assert st'.states == st.states;
    assert NeighbourEats(st, j) || !WillDecide(st, i, j) || WillDecide(st', i, j) || st.states[j] != HUNGRY;
  }

  lemma ReadStep(st: State, i: nat)
    requires Inv(st) && CanStep(st, i) && Reads(st, i)
    ensures Inv(Step(st, i))
  {
    var st' := Step(st, i);
    assert Critical(st.pc[i]) && Critical(st'.pc[i]);
    forall j: nat | j < |st.pc| ensures LocalOk(st', j) && TestOk(st', j) && HungryOk(st', j) {
      ReadKeepsLocal(st, i, j);
      ReadKeepsHungry(st, i, j);
    }
  }

  predicate Grants(st: State, i: nat) {
    i < |st.pc| && st.pc[i].Test? && st.pc[i].stage == Grant
  }

  lemma GrantKeepsLocal(st: State, i: nat, j: nat)
    requires Inv(st) && CanStep(st, i) && Grants(st, i) && j < |st.pc|
    ensures LocalOk(Step(st, i), j) && TestOk(Step(st, i), j)
  {
    var st', t := Step(st, i), Target(i, st.pc[i].call, |st.pc|);
    assert Critical(st.pc[i]) && Critical(st'.pc[i]);
    assert LocalOk(st, i) && TestOk(st, i) && LocalOk(st, t) && LocalOk(st, j) && TestOk(st, j);
    assert Signals(st', i, t);
    assert forall k: nat | k < |st.pc| && k != i :: !Signals(st, k, j) && !Signals(st', k, j);
  }

  lemma GrantKeepsHungry(st: State, i: nat, j: nat)
    requires Inv(st) && CanStep(st, i) && Grants(st, i) && j < |st.pc|
    ensures HungryOk(Step(st, i), j)
  {
    var st', t := Step(st, i), Target(i, st.pc[i].call, |st.pc|);
    assert Critical(st.pc[i]) && Critical(st'.pc[i]);
    assert LocalOk(st, i) && TestOk(st, i) && HungryOk(st, j);
    assert forall k: nat | k < |st.pc| && k != i :: !WillDecide(st, k, j);
    assert j != t && WillDecide(st, i, j) ==> WillDecide(st', i, j);
  }

  lemma GrantStep(st: State, i: nat)
    requires Inv(st) && CanStep(st, i) && Grants(st, i)
    ensures Inv(Step(st, i))
  {
    var st' := Step(st, i);
    assert Critical(st.pc[i]) && Critical(st'.pc[i]);
    assert TestOk(st, i);
    forall j: nat | j < |st.pc| ensures LocalOk(st', j) && TestOk(st', j) && HungryOk(st', j) {
      GrantKeepsLocal(st, i, j);
      GrantKeepsHungry(st, i, j);
    }
  }

  lemma SignalStep(st: State, i: nat)
    requires Inv(st) && CanStep(st, i) && st.pc[i].Test? && st.pc[i].stage == Signal
    ensures Inv(Step(st, i))
  {
    var st' := Step(st, i);
    var n := |st.pc|;
    var t := Target(i, st.pc[i].call, n);
    assert Critical(st.pc[i]) && Critical(st'.pc[i]);
    assert LocalOk(st, i) && TestOk(st, i) && LocalOk(st, t);
    forall j: nat | j < n ensures LocalOk(st', j) && TestOk(st', j) && HungryOk(st', j) {
      assert LocalOk(st, j) && TestOk(st, j) && HungryOk(st, j);
      assert forall k: nat | k < n && k != i :: !Signals(st, k, j) && !Signals(st', k, j);
      assert forall k: nat | k < n && k != i :: !WillDecide(st, k, j);
      assert WillDecide(st, i, j) ==> WillDecide(st', i, j);
    }
  }

  /** Every state of every interleaving satisfies the invariant. */
  lemma {:induction false} RunInv(run: seq<State>, k: nat)
    requires IsRun(run) && k < |run|
    ensures Inv(run[k])
  {
    if k == 0 {
      InitInv(run[0]);
    } else {
      RunInv(run, k - 1);
      assert StepAt(run, k);
      var i: nat :| CanStep(run[k - 1], i) && run[k] == Step(run[k - 1], i);
      StepInv(run[k - 1], i);
    }
  }

  // ---------------------------------------------------------------- what it means

  /** A philosopher past its own s[i].wait() and not yet in the body of put_fork. */
  predicate HasForks(pc: PC) {
    pc.Dining? || pc.PutHeld?
  }

  /** Neighbours are never both EATING, and nobody is let through to eat without being EATING. */
  lemma NeighboursNeverBothEat(run: seq<State>, k: nat, i: nat)
    requires IsRun(run) && k < |run| && i < |run[k].pc|
    ensures Shape(run[k])
    ensures var st := run[k]; var n := |st.pc|;
            && (HasForks(st.pc[i]) ==> st.states[i] == EATING)
            && !(st.states[i] == EATING && st.states[Left(i, n)] == EATING)
            && !(st.states[i] == EATING && st.states[Right(i, n)] == EATING)
            && !(HasForks(st.pc[i]) && HasForks(st.pc[Left(i, n)]))
            && !(HasForks(st.pc[i]) && HasForks(st.pc[Right(i, n)]))
  {
    RunInv(run, k);
    var st := run[k];
    var n := |st.pc|;
    assert Right(Left(i, n), n) == i;
    assert LocalOk(st, i) && LocalOk(st, Left(i, n)) && LocalOk(st, Right(i, n));
  }

  /** s[i] is 0 or 1; it is 1 exactly when i has been granted the forks, the grant has
      been signalled, and i has not yet passed its own wait. */
  lemma SemaphoreMeaning(run: seq<State>, k: nat, i: nat)
    requires IsRun(run) && k < |run| && i < |run[k].pc|
    ensures Shape(run[k])
    ensures var st := run[k];
            && st.s[i] <= 1
            && (st.s[i] == 1 <==> st.states[i] == EATING && st.pc[i] in {TakeRelease, Await} && !BeingSignalled(st, i))
  {
    RunInv(run, k);
    var st := run[k];
    assert LocalOk(st, i);
    if st.pc[i] == TakeRelease {
      forall j: nat | j < |st.pc| ensures !Signals(st, j, i) {
        assert Critical(st.pc[i]);
        assert Critical(st.pc[j]) ==> j == i;
      }
    }
  }

  /** With the monitor free, a HUNGRY philosopher has a neighbour that eats, so it waits for somebody. */
  lemma HungryWaitsForEater(run: seq<State>, k: nat, i: nat)
    requires IsRun(run) && k < |run| && i < |run[k].pc|
    ensures Shape(run[k])
    ensures var st := run[k]; st.mutex == 1 && st.states[i] == HUNGRY ==> NeighbourEats(st, i)
  {
    RunInv(run, k);
    var st := run[k];
    if st.mutex == 1 && st.states[i] == HUNGRY {
      assert HungryOk(st, i);
      assert forall j: nat | j < |st.pc| :: !Critical(st.pc[j]);
    }
  }

  /** With the monitor free, an EATING philosopher is never stuck: it can pass its wait or put its forks down. */
  lemma EaterCanStep(st: State, i: nat)
    requires Inv(st) && i < |st.pc| && st.mutex == 1 && st.states[i] == EATING
    ensures CanStep(st, i)
  {
    assert LocalOk(st, i);
    assert forall j: nat | j < |st.pc| :: !Critical(st.pc[j]);
    assert !BeingSignalled(st, i);
  }

  /** Deadlock freedom: in every state of every interleaving some philosopher can step. */
  lemma DeadlockFree(run: seq<State>, k: nat)
    requires IsRun(run) && k < |run|
    ensures Shape(run[k]) && exists i: nat :: CanStep(run[k], i)
  {
    RunInv(run, k);
    var st := run[k];
    if st.mutex == 0 {
      var i: nat :| i < |st.pc| && Critical(st.pc[i]);
      assert CanStep(st, i);
    } else {
      assert LocalOk(st, 0);
      if st.states[0] == THINKING {
        assert CanStep(st, 0);
      } else if st.states[0] == EATING {
        EaterCanStep(st, 0);
      } else {
        HungryWaitsForEater(run, k, 0);
        EaterCanStep(st, if st.states[Left(0, |st.pc|)] == EATING then Left(0, |st.pc|) else Right(0, |st.pc|));
      }
    }
  }

  /** Nobody is blocked for no reason: whoever cannot step waits for the holder of Mutex, or
      waits hungry next to an eater; both of those can step. */
  lemma BlockedOnlyByActive(run: seq<State>, k: nat, i: nat)
    requires IsRun(run) && k < |run| && i < |run[k].pc|
    ensures Shape(run[k])
    ensures var st := run[k]; var n := |st.pc|;
            !CanStep(st, i) ==>
              || (exists h: nat | h < n :: Critical(st.pc[h]) && CanStep(st, h))
              || (st.states[i] == HUNGRY
                  && exists e: nat | e < n :: (e == Left(i, n) || e == Right(i, n)) && st.states[e] == EATING && CanStep(st, e))
  {
    RunInv(run, k);
    var st := run[k];
    var n := |st.pc|;
    if !CanStep(st, i) {
      if st.mutex == 0 {
        var h: nat :| h < n && Critical(st.pc[h]);
        assert CanStep(st, h);
      } else {
        assert LocalOk(st, i);
        assert forall j: nat | j < n :: !Critical(st.pc[j]);
        assert !BeingSignalled(st, i);
        HungryWaitsForEater(run, k, i);
        var e := if st.states[Left(i, n)] == EATING then Left(i, n) else Right(i, n);
        EaterCanStep(st, e);
      }
    }
  }
}
