/** How long a philosopher can stay hungry: overtaking is bounded in rings of two and three, and unbounded from four on. */
module Starvation {
  import opened Philosophers

  // ---------------------------------------------------------------- rings of two and three

  /** Somebody other than i begins to eat. */
  ghost predicate Overtakes(st: State, st': State, i: nat) {
    exists t: nat | t < |st.states| && t < |st'.states| && t != i :: st.states[t] != EATING && st'.states[t] == EATING
  }

  /** How often i is overtaken between states j and k of a run. */
  ghost function Overtaken(run: seq<State>, i: nat, j: nat, k: nat): nat
    requires j <= k < |run|
    decreases k
  {
    if j == k then 0
    else Overtaken(run, i, j, k - 1) + if Overtakes(run[k - 1], run[k], i) then 1 else 0
  }

  /** In a ring of three, the left neighbour of i still has a meal to pass on to its own left. */
  ghost predicate LeftFirst(st: State, i: nat)
    requires Shape(st) && i < |st.pc|
  {
    var l := Left(i, |st.pc|);
    |st.pc| == 3 && (st.states[l] == EATING
                     || (st.pc[l].Test? && st.pc[l].call == FromPutLeft && st.pc[l].stage != Signal))
  }

  ghost function Rank(st: State, i: nat): nat
    requires Shape(st) && i < |st.pc|
  {
    if LeftFirst(st, i) then 1 else 0
  }

  /** While i is hungry and somebody else is being granted the forks, it is by the left neighbour passing left. */
  lemma GrantPassesLeft(st: State, k: nat, i: nat)
    requires Inv(st) && 2 <= |st.pc| <= 3 && k < |st.pc| && i < |st.pc|
    requires st.pc[k].Test? && st.pc[k].stage == Grant && st.states[i] == HUNGRY
    ensures var n := |st.pc|;
            Target(k, st.pc[k].call, n) == i
            || (n == 3 && k == Left(i, n) && st.pc[k].call == FromPutLeft && Target(k, st.pc[k].call, n) == Right(i, n))
  {
    var n := |st.pc|;
    var t := Target(k, st.pc[k].call, n);
    assert Critical(st.pc[k]);
    assert LocalOk(st, k) && TestOk(st, k) && HungryOk(st, i);
    assert st.states[t] == HUNGRY && st.states[Left(t, n)] != EATING && st.states[Right(t, n)] != EATING;
    assert !NeighbourEats(st, i);
    var w: nat :| w < n && WillDecide(st, w, i);
    assert Critical(st.pc[w]);
    assert w == k;
  }

  lemma NoGrantNoMeal(st: State, k: nat, i: nat)
    requires Inv(st) && CanStep(st, k) && !(st.pc[k].Test? && st.pc[k].stage == Grant)
    ensures !Overtakes(st, Step(st, k), i)
  {}

  lemma RankKept(st: State, k: nat, i: nat)
    requires Inv(st) && CanStep(st, k) && |st.pc| <= 3 && i < |st.pc| && st.states[i] == HUNGRY
    requires !(st.pc[k].Test? && st.pc[k].stage == Grant)
    ensures Shape(Step(st, k)) && |Step(st, k).pc| == |st.pc|
    ensures LeftFirst(Step(st, k), i) ==> LeftFirst(st, i)
  {
    assert LocalOk(st, k);
  }

  lemma RankSpent(st: State, k: nat, i: nat)
    requires Inv(st) && CanStep(st, k) && i < |st.pc| == 3 && st.pc[k] == Test(FromPutLeft, Grant)
    requires k == Left(i, 3)
    ensures Shape(Step(st, k)) && |Step(st, k).pc| == 3
    ensures LeftFirst(st, i) && !LeftFirst(Step(st, k), i)
  {
    assert LocalOk(st, k);
  }

  /** Being overtaken uses up the rank, and no step restores it while i is hungry. */
  lemma RankFalls(st: State, k: nat, i: nat)
    requires Inv(st) && CanStep(st, k) && |st.pc| <= 3 && i < |st.pc|
    requires st.states[i] == HUNGRY && Step(st, k).states[i] == HUNGRY
    ensures Shape(Step(st, k)) && |Step(st, k).pc| == |st.pc|
    ensures Rank(Step(st, k), i) + (if Overtakes(st, Step(st, k), i) then 1 else 0) <= Rank(st, i)
  {
    if st.pc[k].Test? && st.pc[k].stage == Grant {
      GrantPassesLeft(st, k, i);
      assert Target(k, st.pc[k].call, |st.pc|) != i;
      RankSpent(st, k, i);
    } else {
      NoGrantNoMeal(st, k, i);
      RankKept(st, k, i);
    }
  }

  ghost predicate HungryAt(run: seq<State>, m: nat, i: nat) {
    m < |run| && i < |run[m].states| && run[m].states[i] == HUNGRY
  }

  lemma RankFallsAt(run: seq<State>, k: nat, i: nat)
    requires IsRun(run) && k + 1 < |run| && HungryAt(run, k, i) && HungryAt(run, k + 1, i) && |run[k].pc| <= 3
    ensures Shape(run[k]) && Shape(run[k + 1]) && |run[k + 1].pc| == |run[k].pc|
    ensures Rank(run[k + 1], i) + (if Overtakes(run[k], run[k + 1], i) then 1 else 0) <= Rank(run[k], i)
  {
    RunInv(run, k);
    assert StepAt(run, k + 1);
    var w: nat :| CanStep(run[k], w) && run[k + 1] == Step(run[k], w);
    RankFalls(run[k], w, i);
  }

  lemma RankBounded(st: State, i: nat)
    requires Shape(st) && i < |st.pc|
    ensures Rank(st, i) <= if |st.pc| == 3 then 1 else 0
  {}

  ghost predicate HungryFrom(run: seq<State>, j: nat, k: nat, i: nat) {
    forall m: nat | j <= m <= k :: HungryAt(run, m, i)
  }

  lemma {:induction false} OvertakenRank(run: seq<State>, i: nat, j: nat, k: nat)
    requires IsRun(run) && j <= k < |run| && |run[j].pc| <= 3 && HungryFrom(run, j, k, i)
    ensures Shape(run[j]) && Shape(run[k]) && i < |run[k].pc| == |run[j].pc|
    ensures Overtaken(run, i, j, k) + Rank(run[k], i) <= Rank(run[j], i)
    decreases k
  {
    assert HungryAt(run, j, i);
    if j == k {
      RunInv(run, j);
    } else {
      OvertakenRank(run, i, j, k - 1);
      assert HungryAt(run, k - 1, i) && HungryAt(run, k, i);
      RankFallsAt(run, k - 1, i);
    }
  }

  /** In a ring of two a hungry philosopher is never overtaken, and in a ring of three at most once. */
  lemma OvertakenAtMost(run: seq<State>, i: nat, j: nat, k: nat)
    requires IsRun(run) && j <= k < |run| && |run[j].pc| <= 3 && HungryFrom(run, j, k, i)
    ensures Overtaken(run, i, j, k) <= |run[j].pc| - 2
  {
    OvertakenRank(run, i, j, k);
    RankBounded(run[j], i);
  }

  // ---------------------------------------------------------------- schedules

  /** The state and semaphore of v and where v is. */
  ghost predicate Same(st: State, st': State, v: nat) {
    && Shape(st) && Shape(st') && |st'.pc| == |st.pc|
    && (v < |st.pc| ==> st'.states[v] == st.states[v] && st'.s[v] == st.s[v] && st'.pc[v] == st.pc[v])
  }

  /** A schedule names who steps; from st it can be followed and leads to end. */
  ghost predicate Leads(st: State, who: seq<nat>, end: State)
    decreases |who|
  {
    Shape(st) && if who == [] then st == end else CanStep(st, who[0]) && Leads(Step(st, who[0]), who[1..], end)
  }

  /** Along the schedule nothing about v changes. */
  ghost predicate Still(st: State, who: seq<nat>, v: nat)
    decreases |who|
  {
    who == []
    || (Shape(st) && CanStep(st, who[0]) && Shape(Step(st, who[0])) && Same(st, Step(st, who[0]), v)
        && Still(Step(st, who[0]), who[1..], v))
  }

  lemma {:induction false} LeadsConcat(st: State, a: seq<nat>, mid: State, b: seq<nat>, end: State)
    requires Leads(st, a, mid) && Leads(mid, b, end)
    ensures Leads(st, a + b, end)
    decreases |a|
  {
    if a == [] {
      assert a + b == b;
    } else {
      assert (a + b)[0] == a[0] && (a + b)[1..] == a[1..] + b;
      LeadsConcat(Step(st, a[0]), a[1..], mid, b, end);
    }
  }

  lemma {:induction false} StillConcat(st: State, a: seq<nat>, mid: State, b: seq<nat>, v: nat)
    requires Leads(st, a, mid) && Still(st, a, v) && Still(mid, b, v)
    ensures Still(st, a + b, v)
    decreases |a|
  {
    if a == [] {
      assert a + b == b;
    } else {
      assert (a + b)[0] == a[0] && (a + b)[1..] == a[1..] + b;
      StillConcat(Step(st, a[0]), a[1..], mid, b, v);
    }
  }

  /** A step of i that leaves everybody else as they are. */
  ghost predicate Solo(st: State, st': State, i: nat) {
    && Shape(st) && CanStep(st, i) && st' == Step(st, i) && Shape(st')
    && forall v: nat | v != i :: Same(st, st', v)
  }

  /** The states p lead from st to end by such steps. */
  ghost predicate Goes(p: seq<State>, st: State, i: nat, end: State) {
    && |p| > 0 && p[0] == st && p[|p| - 1] == end && Shape(end)
    && forall m: nat | m + 1 < |p| :: Solo(p[m], p[m + 1], i)
  }

  function Times(i: nat, k: nat): (who: seq<nat>)
    ensures |who| == k && forall m | 0 <= m < k :: who[m] == i
  {
    seq(k, m => i)
  }

  lemma GoesOne(st: State, i: nat, end: State)
    requires Solo(st, end, i)
    ensures Goes([st, end], st, i, end)
  {}

  lemma GoesConcat(p: seq<State>, st: State, i: nat, mid: State, q: seq<State>, end: State)
    requires Goes(p, st, i, mid) && Goes(q, mid, i, end)
    ensures Goes(p + q[1..], st, i, end)
  {
    var r := p + q[1..];
    forall m: nat | m + 1 < |r| ensures Solo(r[m], r[m + 1], i) {
      if m + 1 < |p| {
        assert Solo(p[m], p[m + 1], i);
      } else {
        var l := m + 1 - |p|;
        assert Solo(q[l], q[l + 1], i);
      }
    }
  }

  lemma {:induction false} GoesLeads(p: seq<State>, st: State, i: nat, end: State, v: nat)
    requires Goes(p, st, i, end)
    ensures Leads(st, Times(i, |p| - 1), end)
    ensures v != i ==> Still(st, Times(i, |p| - 1), v)
    decreases |p|
  {
    if |p| == 1 {
    } else {
      assert Solo(p[0], p[0 + 1], i);
      forall m: nat | m + 1 < |p[1..]| ensures Solo(p[1..][m], p[1..][m + 1], i) {
        assert Solo(p[m + 1], p[m + 2], i);
      }
      assert Times(i, |p| - 1)[1..] == Times(i, |p| - 2);
      GoesLeads(p[1..], p[1], i, end, v);
    }
  }

  // ---------------------------------------------------------------- whole calls

  /** Nobody is inside the monitor, and i has no signal pending. */
  ghost predicate Idle(st: State, i: nat) {
    Shape(st) && i < |st.pc| && st.mutex == 1 && st.s[i] == 0
  }

  /** One more step in front. */
  lemma GoesCons(st: State, i: nat, next: State, p: seq<State>, end: State)
    requires Solo(st, next, i) && Goes(p, next, i, end)
    ensures Goes([st] + p, st, i, end)
  {
    GoesOne(st, i, next);
    GoesConcat([st, next], st, i, next, p, end);
    assert [st, next] + p[1..] == [st] + p;
  }

  lemma GoesNowhere(st: State, i: nat)
    requires Shape(st)
    ensures Goes([st], st, i, st)
  {}

  /** Taking or releasing Mutex, or a read inside `test`. */
  lemma SoloMove(st: State, i: nat, m: nat, pc: PC)
    requires Shape(st) && CanStep(st, i) && Step(st, i) == Goto(st, i, pc).(mutex := m)
    ensures Solo(st, Goto(st, i, pc).(mutex := m), i)
  {}

  /** An assignment to states[i]. */
  lemma SoloSet(st: State, i: nat, p: Phase, pc: PC)
    requires Shape(st) && CanStep(st, i) && Step(st, i) == Goto(st, i, pc).(states := st.states[i := p])
    ensures Solo(st, Goto(st, i, pc).(states := st.states[i := p]), i)
  {}

  /** A step on s[i]. */
  lemma SoloSignal(st: State, i: nat, b: nat, pc: PC)
    requires Shape(st) && CanStep(st, i) && Step(st, i) == Goto(st, i, pc).(s := st.s[i := b])
    ensures Solo(st, Goto(st, i, pc).(s := st.s[i := b]), i)
  {}

  /** The state once i is inside the monitor and has set states[i]. */
  function Entered(st: State, i: nat): State
    requires i < |st.pc| == |st.states|
  {
    if st.pc[i] == Thinking
    then State(st.states[i := HUNGRY], 0, st.s, st.pc[i := Test(FromTake, ReadSelf)])
    else State(st.states[i := THINKING], 0, st.s, st.pc[i := Test(FromPutLeft, ReadSelf)])
  }

  lemma Enters(st: State, i: nat) returns (p: seq<State>)
    requires Idle(st, i) && st.pc[i] in {Thinking, Dining}
    ensures Goes(p, st, i, Entered(st, i))
  {
    var inside := if st.pc[i] == Thinking then TakeHeld else PutHeld;
    var s1 := Goto(st, i, inside).(mutex := 0);
    SoloMove(st, i, 0, inside);
    var s2 := Entered(st, i);
    assert st.pc[i := inside][i := s2.pc[i]] == s2.pc;
    SoloSet(s1, i, s2.states[i], s2.pc[i]);
    GoesOne(s1, i, s2);
    GoesCons(st, i, s1, [s1, s2], s2);
    p := [st] + [s1, s2];
  }

  /** What `test` asks of its target. */
  ghost predicate Grantable(st: State, t: nat)
    requires Shape(st) && t < |st.pc|
  {
    st.states[t] == HUNGRY && !NeighbourEats(st, t)
  }

  lemma GotoTwice(st: State, i: nat, a: PC, b: PC)
    requires i < |st.pc|
    ensures Goto(Goto(st, i, a), i, b) == Goto(st, i, b)
  {
    assert st.pc[i := a][i := b] == st.pc[i := b];
  }

  /** A read inside `test`. */
  lemma Read(st: State, i: nat, call: Call, stage: Stage, pc: PC)
    requires Shape(st) && i < |st.pc| && stage in {ReadSelf, ReadLeft, ReadRight}
    requires TestStep(st, i, call, stage) == Goto(st, i, pc)
    ensures Solo(Goto(st, i, Test(call, stage)), Goto(st, i, pc), i)
  {
    var a := Goto(st, i, Test(call, stage));
    GotoTwice(st, i, Test(call, stage), pc);
    assert TestStep(a, i, call, stage) == Goto(a, i, TestStep(st, i, call, stage).pc[i]);
    SoloMove(a, i, st.mutex, pc);
  }

  /** A call of `test` that grants nothing only moves on. */
  lemma TestFails(st: State, i: nat, call: Call) returns (p: seq<State>)
    requires Shape(st) && i < |st.pc| && st.pc[i] == Test(call, ReadSelf) && !Grantable(st, Target(i, call, |st.pc|))
    ensures Goes(p, st, i, Goto(st, i, AfterTest(call)))
  {
    var n := |st.pc|;
    var t := Target(i, call, n);
    var end := Goto(st, i, AfterTest(call));
    var s1, s2 := Goto(st, i, Test(call, ReadLeft)), Goto(st, i, Test(call, ReadRight));
    assert st == Goto(st, i, Test(call, ReadSelf));
    GoesNowhere(end, i);
    if st.states[t] != HUNGRY {
      Read(st, i, call, ReadSelf, AfterTest(call));
      GoesCons(st, i, end, [end], end);
      return [st] + [end];
    }
    Read(st, i, call, ReadSelf, Test(call, ReadLeft));
    if st.states[Left(t, n)] == EATING {
      Read(st, i, call, ReadLeft, AfterTest(call));
      GoesCons(s1, i, end, [end], end);
      GoesCons(st, i, s1, [s1] + [end], end);
      return [st] + ([s1] + [end]);
    }
    Read(st, i, call, ReadLeft, Test(call, ReadRight));
    Read(st, i, call, ReadRight, AfterTest(call));
    GoesCons(s2, i, end, [end], end);
    GoesCons(s1, i, s2, [s2] + [end], end);
    GoesCons(st, i, s1, [s1] + ([s2] + [end]), end);
    p := [st] + ([s1] + ([s2] + [end]));
  }

  /** The writes of a granting `test`, the release of Mutex and the wait. */
  lemma Granted(st: State, i: nat) returns (p: seq<State>)
    requires Shape(st) && i < |st.pc| && st.s[i] == 0
    ensures Goes(p, Goto(st, i, Test(FromTake, Grant)), i,
                 State(st.states[i := EATING], st.mutex + 1, st.s, st.pc[i := Dining]))
  {
    var e, up := st.states[i := EATING], st.s[i := 1];
    var s3 := Goto(st, i, Test(FromTake, Grant));
    var s4 := State(e, st.mutex, st.s, st.pc[i := Test(FromTake, Signal)]);
    var s5 := State(e, st.mutex, up, st.pc[i := TakeRelease]);
    var s6 := State(e, st.mutex + 1, up, st.pc[i := Await]);
    var s7 := State(e, st.mutex + 1, st.s, st.pc[i := Dining]);
    assert up[i := 0] == st.s;
    GoesNowhere(s7, i);
    SoloSignal(s6, i, 0, Dining);
    GoesCons(s6, i, s7, [s7], s7);
    SoloMove(s5, i, st.mutex + 1, Await);
    GoesCons(s5, i, s6, [s6] + [s7], s7);
    SoloSignal(s4, i, 1, TakeRelease);
    GoesCons(s4, i, s5, [s5] + ([s6] + [s7]), s7);
    SoloSet(s3, i, EATING, Test(FromTake, Signal));
    GoesCons(s3, i, s4, [s4] + ([s5] + ([s6] + [s7])), s7);
    p := [s3] + ([s4] + ([s5] + ([s6] + [s7])));
  }

  /** A call of `test` from take_fork that grants i its forks, with the wait that follows. */
  lemma TestGrants(st: State, i: nat) returns (p: seq<State>)
    requires Shape(st) && i < |st.pc| && st.pc[i] == Test(FromTake, ReadSelf) && st.s[i] == 0 && Grantable(st, i)
    ensures Goes(p, st, i, State(st.states[i := EATING], st.mutex + 1, st.s, st.pc[i := Dining]))
  {
    var end := State(st.states[i := EATING], st.mutex + 1, st.s, st.pc[i := Dining]);
    var s1, s2 := Goto(st, i, Test(FromTake, ReadLeft)), Goto(st, i, Test(FromTake, ReadRight));
    var s3 := Goto(st, i, Test(FromTake, Grant));
    assert st == Goto(st, i, Test(FromTake, ReadSelf));
    var q := Granted(st, i);
    Read(st, i, FromTake, ReadRight, Test(FromTake, Grant));
    GoesCons(s2, i, s3, q, end);
    Read(st, i, FromTake, ReadLeft, Test(FromTake, ReadRight));
    GoesCons(s1, i, s2, [s2] + q, end);
    Read(st, i, FromTake, ReadSelf, Test(FromTake, ReadLeft));
    GoesCons(st, i, s1, [s1] + ([s2] + q), end);
    p := [st] + ([s1] + ([s2] + q));
  }

  /** take_fork by somebody whose neighbours do not eat. */
  lemma TakeCall(st: State, i: nat) returns (p: seq<State>)
    requires Idle(st, i) && st.pc[i] == Thinking && !NeighbourEats(st, i)
    ensures Goes(p, st, i, st.(states := st.states[i := EATING], pc := st.pc[i := Dining]))
  {
    var s1 := Entered(st, i);
    var a := Enters(st, i);
    assert Grantable(s1, i);
    var b := TestGrants(s1, i);
    var end := st.(states := st.states[i := EATING], pc := st.pc[i := Dining]);
    assert s1.states[i := EATING] == end.states && s1.pc[i := Dining] == end.pc;
    GoesConcat(a, st, i, s1, b, end);
    p := a + b[1..];
  }

  /** take_fork by somebody with a neighbour that eats. */
  lemma WaitCall(st: State, i: nat) returns (p: seq<State>)
    requires Idle(st, i) && st.pc[i] == Thinking && NeighbourEats(st, i)
    ensures Goes(p, st, i, st.(states := st.states[i := HUNGRY], pc := st.pc[i := Await]))
  {
    var s1 := Entered(st, i);
    var a := Enters(st, i);
    assert !Grantable(s1, i);
    var b := TestFails(s1, i, FromTake);
    var s2 := Goto(s1, i, TakeRelease);
    var end := st.(states := st.states[i := HUNGRY], pc := st.pc[i := Await]);
    GotoTwice(s1, i, TakeRelease, Await);
    assert s1.pc[i := Await] == end.pc;
    SoloMove(s2, i, 1, Await);
    GoesOne(s2, i, end);
    GoesConcat(b, s1, i, s2, [s2, end], end);
    GoesConcat(a, st, i, s1, b + [s2, end][1..], end);
    p := a + (b + [s2, end][1..])[1..];
  }

  /** put_fork by somebody whose departure lets neither neighbour eat. */
  lemma PutCall(st: State, i: nat) returns (p: seq<State>)
    requires Idle(st, i) && st.pc[i] == Dining
    requires var left := st.(states := st.states[i := THINKING]);
             !Grantable(left, Left(i, |st.pc|)) && !Grantable(left, Right(i, |st.pc|))
    ensures Goes(p, st, i, st.(states := st.states[i := THINKING], pc := st.pc[i := Thinking]))
  {
    var s1 := Entered(st, i);
    var a := Enters(st, i);
    var b := TestFails(s1, i, FromPutLeft);
    var s2 := Goto(s1, i, Test(FromPutRight, ReadSelf));
    var c := TestFails(s2, i, FromPutRight);
    var s3 := Goto(s2, i, PutRelease);
    var end := st.(states := st.states[i := THINKING], pc := st.pc[i := Thinking]);
    GotoTwice(s1, i, Test(FromPutRight, ReadSelf), PutRelease);
    GotoTwice(s1, i, PutRelease, Thinking);
    assert s1.pc[i := Thinking] == end.pc;
    SoloMove(s3, i, 1, Thinking);
    GoesOne(s3, i, end);
    GoesConcat(c, s2, i, s3, [s3, end], end);
    GoesConcat(b, s1, i, s2, c + [s3, end][1..], end);
    var d := b + (c + [s3, end][1..])[1..];
    GoesConcat(a, st, i, s1, d, end);
    p := a + d[1..];
  }

  // ---------------------------------------------------------------- tables

  /** The table between calls: who eats, who waits hungry, and everybody else thinks. */
  function Table(n: nat, eat: set<nat>, wait: set<nat>): State {
    State(seq(n, v => if v in eat then EATING else if v in wait then HUNGRY else THINKING),
          1,
          seq(n, v => 0),
          seq(n, v => if v in eat then Dining else if v in wait then Await else Thinking))
  }

  /** A stretch of schedule from one table to another in which only i moves. */
  ghost predicate Turn(st: State, who: seq<nat>, end: State, i: nat) {
    Leads(st, who, end) && i in who && forall v: nat | v != i :: Still(st, who, v)
  }

  lemma GoesTurn(p: seq<State>, st: State, i: nat, end: State) returns (who: seq<nat>)
    requires Goes(p, st, i, end) && st != end
    ensures Turn(st, who, end, i)
  {
    who := Times(i, |p| - 1);
    assert who[0] == i;
    GoesLeads(p, st, i, end, i);
    forall v: nat ensures Leads(st, who, end) && (v != i ==> Still(st, who, v)) {
      GoesLeads(p, st, i, end, v);
    }
  }

  lemma Take(n: nat, eat: set<nat>, wait: set<nat>, i: nat) returns (who: seq<nat>)
    requires n >= 2 && i < n && i !in eat && i !in wait && Left(i, n) !in eat && Right(i, n) !in eat
    ensures Turn(Table(n, eat, wait), who, Table(n, eat + {i}, wait), i)
  {
    var st, end := Table(n, eat, wait), Table(n, eat + {i}, wait);
    var p := TakeCall(st, i);
    assert end == st.(states := st.states[i := EATING], pc := st.pc[i := Dining]);
    assert st.pc[i] != end.pc[i];
    who := GoesTurn(p, st, i, end);
  }

  lemma TakeAndWait(n: nat, eat: set<nat>, wait: set<nat>, i: nat) returns (who: seq<nat>)
    requires n >= 2 && i < n && i !in eat && i !in wait && (Left(i, n) in eat || Right(i, n) in eat)
    ensures Turn(Table(n, eat, wait), who, Table(n, eat, wait + {i}), i)
  {
    var st, end := Table(n, eat, wait), Table(n, eat, wait + {i});
    var p := WaitCall(st, i);
    assert end == st.(states := st.states[i := HUNGRY], pc := st.pc[i := Await]);
    assert st.pc[i] != end.pc[i];
    who := GoesTurn(p, st, i, end);
  }

  /** A philosopher t that the departure of i does not help. */
  predicate StaysPut(n: nat, eat: set<nat>, wait: set<nat>, i: nat, t: nat)
    requires t < n
  {
    t !in wait || t in eat || (Left(t, n) != i && Left(t, n) in eat) || (Right(t, n) != i && Right(t, n) in eat)
  }

  lemma PutBack(n: nat, eat: set<nat>, wait: set<nat>, i: nat) returns (who: seq<nat>)
    requires n >= 2 && i < n && i in eat && i !in wait
    requires StaysPut(n, eat, wait, i, Left(i, n)) && StaysPut(n, eat, wait, i, Right(i, n))
    ensures Turn(Table(n, eat, wait), who, Table(n, eat - {i}, wait), i)
  {
    var st, end := Table(n, eat, wait), Table(n, eat - {i}, wait);
    var p := PutCall(st, i);
    assert end == st.(states := st.states[i := THINKING], pc := st.pc[i := Thinking]);
    assert st.pc[i] != end.pc[i];
    who := GoesTurn(p, st, i, end);
  }

  // ---------------------------------------------------------------- rings of four and more

  /** A stretch of schedule that leaves some philosophers as they are. */
  ghost predicate Spares(st: State, who: seq<nat>, end: State, quiet: set<nat>) {
    Leads(st, who, end) && forall v: nat | v in quiet :: Still(st, who, v)
  }

  lemma TurnSpares(st: State, who: seq<nat>, end: State, i: nat, quiet: set<nat>)
    requires Turn(st, who, end, i) && i !in quiet
    ensures Spares(st, who, end, quiet)
  {}

  lemma SparesConcat(st: State, a: seq<nat>, mid: State, b: seq<nat>, end: State, quiet: set<nat>)
    requires Spares(st, a, mid, quiet) && Spares(mid, b, end, quiet)
    ensures Spares(st, a + b, end, quiet)
  {
    LeadsConcat(st, a, mid, b, end);
    forall v: nat | v in quiet ensures Still(st, a + b, v) {
      StillConcat(st, a, mid, b, v);
    }
  }

  /** Philosopher i eats once, while the rest stay as they are. */
  lemma EatOnce(n: nat, eat: set<nat>, wait: set<nat>, i: nat) returns (who: seq<nat>)
    requires n >= 2 && i < n && i !in eat && i !in wait && Left(i, n) !in eat && Right(i, n) !in eat
    requires Left(i, n) !in wait && Right(i, n) !in wait
    ensures Spares(Table(n, eat, wait), who, Table(n, eat, wait), wait) && i in who
  {
    var st, mid := Table(n, eat, wait), Table(n, eat + {i}, wait);
    var a := Take(n, eat, wait, i);
    var b := PutBack(n, eat + {i}, wait, i);
    assert eat + {i} - {i} == eat;
    TurnSpares(st, a, mid, i, wait);
    TurnSpares(mid, b, st, i, wait);
    SparesConcat(st, a, mid, b, st, wait);
    who := a + b;
  }

  /** While 2 eats and 1 waits, everybody from j on eats once. */
  lemma {:induction false} RestEat(n: nat, j: nat) returns (who: seq<nat>)
    requires 4 <= j <= n && n >= 5
    ensures Spares(Table(n, {2}, {1}), who, Table(n, {2}, {1}), {1})
    ensures forall i: nat | j <= i < n :: i in who
    decreases n - j
  {
    var st := Table(n, {2}, {1});
    if j == n {
      who := [];
    } else {
      var a := EatOnce(n, {2}, {1}, j);
      var b := RestEat(n, j + 1);
      SparesConcat(st, a, st, b, st, {1});
      who := a + b;
    }
  }

  /** Those who wait throughout: philosopher 1, and in a ring of four its opposite too. */
  function Waiting(n: nat): set<nat> {
    if n == 4 then {1, 3} else {1}
  }

  /** Philosopher 2 begins to eat before 0 stops, so 1 is passed over. */
  lemma HandOver(n: nat) returns (a: seq<nat>, b: seq<nat>)
    requires n >= 4
    ensures Spares(Table(n, {0}, Waiting(n)), a, Table(n, {0, 2}, Waiting(n)), Waiting(n)) && 2 in a
    ensures Spares(Table(n, {0, 2}, Waiting(n)), b, Table(n, {2}, Waiting(n)), Waiting(n)) && 0 in b
  {
    a := Take(n, {0}, Waiting(n), 2);
    assert {0} + {2} == {0, 2};
    TurnSpares(Table(n, {0}, Waiting(n)), a, Table(n, {0, 2}, Waiting(n)), 2, Waiting(n));
    b := PutBack(n, {0, 2}, Waiting(n), 0);
    assert {0, 2} - {0} == {2};
    TurnSpares(Table(n, {0, 2}, Waiting(n)), b, Table(n, {2}, Waiting(n)), 0, Waiting(n));
  }

  /** And back: 0 begins to eat before 2 stops. */
  lemma HandBack(n: nat) returns (who: seq<nat>)
    requires n >= 4
    ensures Spares(Table(n, {2}, Waiting(n)), who, Table(n, {0}, Waiting(n)), Waiting(n))
  {
    var st, mid, end := Table(n, {2}, Waiting(n)), Table(n, {0, 2}, Waiting(n)), Table(n, {0}, Waiting(n));
    var a := Take(n, {2}, Waiting(n), 0);
    assert {2} + {0} == {0, 2};
    TurnSpares(st, a, mid, 0, Waiting(n));
    var b := PutBack(n, {0, 2}, Waiting(n), 2);
    assert {0, 2} - {2} == {0};
    TurnSpares(mid, b, end, 2, Waiting(n));
    SparesConcat(st, a, mid, b, end, Waiting(n));
    who := a + b;
  }

  /** While 2 eats, the philosophers from 4 on eat; in a ring of four there are none. */
  lemma Others(n: nat) returns (who: seq<nat>)
    requires n >= 4
    ensures Spares(Table(n, {2}, Waiting(n)), who, Table(n, {2}, Waiting(n)), Waiting(n))
    ensures forall i: nat | 4 <= i < n :: i in who
  {
    if n == 4 {
      who := [];
    } else {
      who := RestEat(n, 4);
    }
  }

  /** While 0 eats, philosopher 3 eats unless it waits throughout. */
  lemma Third(n: nat) returns (who: seq<nat>)
    requires n >= 4
    ensures Spares(Table(n, {0}, Waiting(n)), who, Table(n, {0}, Waiting(n)), Waiting(n))
    ensures n > 4 ==> 3 in who
  {
    if n == 4 {
      who := [];
    } else {
      who := EatOnce(n, {0}, {1}, 3);
    }
  }

  /**
   * A fair cycle in which philosopher 1 stays hungry, for every ring of four and more: everybody takes steps in it
   * except those who are blocked all along. Its first part, a, lets philosopher 2 begin to eat.
   */
  lemma Cycle(n: nat) returns (a: seq<nat>, rest: seq<nat>)
    requires n >= 4
    ensures Spares(Table(n, {0}, Waiting(n)), a, Table(n, {0, 2}, Waiting(n)), Waiting(n))
    ensures Spares(Table(n, {0, 2}, Waiting(n)), rest, Table(n, {0}, Waiting(n)), Waiting(n))
    ensures forall i: nat | i < n && i !in Waiting(n) :: i in a + rest
  {
    var w := Waiting(n);
    var st, both, two := Table(n, {0}, w), Table(n, {0, 2}, w), Table(n, {2}, w);
    var b;
    a, b := HandOver(n);
    var c := Others(n);
    var d := HandBack(n);
    var e := Third(n);
    SparesConcat(both, b, two, c, two, w);
    SparesConcat(both, b + c, two, d, st, w);
    SparesConcat(both, b + c + d, st, e, st, w);
    rest := b + c + d + e;
    forall i: nat | i < n && i !in w ensures i in a + rest {
      InConcat(b, c, d, e, i);
      assert i == 0 || i == 2 || i == 3 || i >= 4;
    }
  }

  lemma InConcat(b: seq<nat>, c: seq<nat>, d: seq<nat>, e: seq<nat>, i: nat)
    ensures i in b || i in c || i in e ==> i in b + c + d + e
  {}

  /** The cycle is reached from the start. */
  lemma Stem(n: nat) returns (who: seq<nat>)
    requires n >= 4
    ensures Init(Table(n, {}, {})) && Leads(Table(n, {}, {}), who, Table(n, {0}, Waiting(n)))
  {
    var start := Table(n, {}, {});
    var a := Take(n, {}, {}, 0);
    assert {} + {0} == {0};
    var b := TakeAndWait(n, {0}, {}, 1);
    assert {} + {1} == {1};
    LeadsConcat(start, a, Table(n, {0}, {}), b, Table(n, {0}, {1}));
    who := a + b;
    if n == 4 {
      var c := TakeAndWait(n, {0}, {1}, 3);
      assert {1} + {3} == {1, 3};
      LeadsConcat(start, who, Table(n, {0}, {1}), c, Table(n, {0}, {1, 3}));
      who := who + c;
    }
  }

  // ---------------------------------------------------------------- unbounded hunger

  ghost predicate EndsIn(run: seq<State>, st: State) {
    IsRun(run) && run[|run| - 1] == st
  }

  ghost predicate SameFrom(run: seq<State>, j: nat, v: nat) {
    forall m: nat | j <= m < |run| :: Shape(run[j]) && Shape(run[m]) && Same(run[j], run[m], v)
  }

  /** A schedule continues a run. */
  lemma {:induction false} Follow(run: seq<State>, st: State, who: seq<nat>, end: State, v: nat) returns (more: seq<State>)
    requires EndsIn(run, st) && Leads(st, who, end)
    ensures EndsIn(more, end) && run <= more
    ensures Still(st, who, v) ==> SameFrom(more, |run| - 1, v)
    decreases |who|
  {
    if who == [] {
      more := run;
    } else {
      var next := Step(st, who[0]);
      var longer := run + [next];
      assert Next(st, next);
      forall k: nat | 0 < k < |longer| ensures StepAt(longer, k) {
        assert k < |run| ==> StepAt(run, k);
      }
      more := Follow(longer, next, who[1..], end, v);
      if Still(st, who, v) {
        assert more[|run| - 1] == longer[|run| - 1] == st && more[|run|] == longer[|run|] == next;
        forall m: nat | |run| - 1 <= m < |more| ensures Shape(st) && Shape(more[m]) && Same(st, more[m], v) {
          if m >= |run| {
            assert Same(more[|run|], more[m], v);
          }
        }
      }
    }
  }

  lemma {:induction false} OvertakenPrefix(run: seq<State>, more: seq<State>, i: nat, j: nat, k: nat)
    requires j <= k < |run| && run <= more
    ensures Overtaken(more, i, j, k) == Overtaken(run, i, j, k)
    decreases k
  {
    if j == k {
    } else {
      OvertakenPrefix(run, more, i, j, k - 1);
    }
  }

  lemma SizeKept(run: seq<State>, k: nat)
    requires IsRun(run) && 0 < k < |run|
    ensures |run[k].states| == |run[k - 1].states|
  {
    RunInv(run, k - 1);
    assert StepAt(run, k);
  }

  /** Somebody who begins to eat between j and k has overtaken i once more. */
  lemma {:induction false} OvertakenMore(run: seq<State>, i: nat, t: nat, h: nat, j: nat, k: nat)
    requires IsRun(run) && h <= j <= k < |run| && t != i
    requires t < |run[j].states| && run[j].states[t] != EATING && t < |run[k].states| && run[k].states[t] == EATING
    ensures Overtaken(run, i, h, k) >= Overtaken(run, i, h, j) + 1
    decreases k
  {
    assert k > j;
    SizeKept(run, k);
    if run[k - 1].states[t] != EATING {
      assert Overtakes(run[k - 1], run[k], i);
      OvertakenGrows(run, i, h, j, k - 1);
    } else {
      OvertakenMore(run, i, t, h, j, k - 1);
    }
  }

  lemma {:induction false} OvertakenGrows(run: seq<State>, i: nat, h: nat, j: nat, k: nat)
    requires h <= j <= k < |run|
    ensures Overtaken(run, i, h, k) >= Overtaken(run, i, h, j)
    decreases k
  {
    if j == k {
    } else {
      OvertakenGrows(run, i, h, j, k - 1);
    }
  }

  lemma HungryOn(run: seq<State>, more: seq<State>, j: nat, i: nat)
    requires j < |run| && run <= more && HungryFrom(run, j, |run| - 1, i) && SameFrom(more, |run| - 1, i)
    ensures HungryFrom(more, j, |more| - 1, i)
  {
    assert HungryAt(run, |run| - 1, i);
    forall m: nat | j <= m < |more| ensures HungryAt(more, m, i) {
      if m < |run| {
        assert HungryAt(run, m, i);
      } else {
        assert Same(more[|run| - 1], more[m], i);
      }
    }
  }

  /** A stretch that philosopher 1 spends hungry. */
  lemma HungryFollow(run: seq<State>, j: nat, st: State, who: seq<nat>, end: State) returns (more: seq<State>)
    requires EndsIn(run, st) && Leads(st, who, end) && Still(st, who, 1)
    requires j < |run| && HungryFrom(run, j, |run| - 1, 1)
    ensures EndsIn(more, end) && run <= more && HungryFrom(more, j, |more| - 1, 1)
    ensures Overtaken(more, 1, j, |more| - 1) >= Overtaken(more, 1, j, |run| - 1) == Overtaken(run, 1, j, |run| - 1)
  {
    more := Follow(run, st, who, end, 1);
    HungryOn(run, more, j, 1);
    OvertakenPrefix(run, more, 1, j, |run| - 1);
    OvertakenGrows(more, 1, j, |run| - 1, |more| - 1);
  }

  /** Once round the cycle: philosopher 1 is still hungry and has been overtaken once more. */
  lemma OnceRound(n: nat, run: seq<State>, j: nat) returns (more: seq<State>)
    requires n >= 4 && EndsIn(run, Table(n, {0}, Waiting(n))) && j < |run| && HungryFrom(run, j, |run| - 1, 1)
    ensures EndsIn(more, Table(n, {0}, Waiting(n))) && j < |more| && HungryFrom(more, j, |more| - 1, 1)
    ensures Overtaken(more, 1, j, |more| - 1) >= Overtaken(run, 1, j, |run| - 1) + 1
  {
    var st, both := Table(n, {0}, Waiting(n)), Table(n, {0, 2}, Waiting(n));
    var a, rest := Cycle(n);
    assert Still(st, a, 1) && Still(both, rest, 1);
    var half := HungryFollow(run, j, st, a, both);
    more := HungryFollow(half, j, both, rest, st);
    OnceMore(half, st, both, j, |run| - 1);
  }

  lemma OnceMore(run: seq<State>, st: State, end: State, j: nat, k: nat)
    requires EndsIn(run, end) && j <= k < |run| && run[k] == st
    requires |st.states| > 2 && |end.states| > 2 && st.states[2] != EATING && end.states[2] == EATING
    ensures Overtaken(run, 1, j, |run| - 1) >= Overtaken(run, 1, j, k) + 1
  {
    OvertakenMore(run, 1, 2, j, k, |run| - 1);
  }

  /** In every ring of four and more a philosopher can be overtaken any number of times in one hunger. */
  lemma {:induction false} HungerUnbounded(n: nat, k: nat) returns (run: seq<State>, j: nat)
    requires n >= 4
    ensures EndsIn(run, Table(n, {0}, Waiting(n))) && j < |run| && HungryFrom(run, j, |run| - 1, 1)
    ensures Overtaken(run, 1, j, |run| - 1) >= k
    decreases k
  {
    if k == 0 {
      var stem := Stem(n);
      var start := Table(n, {}, {});
      run := Follow([start], start, stem, Table(n, {0}, Waiting(n)), 1);
      j := |run| - 1;
      assert HungryAt(run, j, 1);
    } else {
      run, j := HungerUnbounded(n, k - 1);
      run := OnceRound(n, run, j);
    }
  }
}
