/** The timer min-heap: timers in an array ordered by expiry time, and what a tick fires. */
module TimerHeap {

  // ---------------------------------------------------------------- heaps of expiry times

  function Parent(i: nat): nat
    requires i > 0
  {
    (i - 1) / 2
  }

  ghost predicate Ordered(s: seq<int>, i: nat)
    requires 0 < i < |s|
  {
    s[Parent(i)] <= s[i]
  }

  /** Heap order: no timer expires before its parent. */
  ghost predicate Heap(s: seq<int>) {
    forall i: nat | 0 < i < |s| :: Ordered(s, i)
  }

  function Swap<T>(s: seq<T>, i: nat, j: nat): (r: seq<T>)
    requires i < |s| && j < |s|
    ensures |r| == |s|
  {
    s[i := s[j]][j := s[i]]
  }

  lemma SwapPermutes<T>(s: seq<T>, i: nat, j: nat)
    requires i < |s| && j < |s|
    ensures multiset(Swap(s, i, j)) == multiset(s)
  {}

  /** The child of i that expires first (the right one on a tie), or |s| if i has no child. */
  function FirstChild(s: seq<int>, i: nat): (c: nat)
    ensures c <= |s| && (c < |s| ==> i < c)
  {
    if 2 * i + 2 < |s| then (if s[2 * i + 1] < s[2 * i + 2] then 2 * i + 1 else 2 * i + 2)
    else if 2 * i + 1 < |s| then 2 * i + 1
    else |s|
  }

  lemma FirstChildMeaning(s: seq<int>, i: nat)
    ensures var c := FirstChild(s, i);
            && (c < |s| ==> Parent(c) == i)
            && (forall d: nat | 0 < d < |s| && Parent(d) == i :: c < |s| && s[c] <= s[d])
  {}

  function SiftUp(s: seq<int>, h: nat): seq<int>
    requires h < |s|
    decreases h
  {
    if h > 0 && s[Parent(h)] > s[h] then SiftUp(Swap(s, Parent(h), h), Parent(h)) else s
  }

  function SiftDown(s: seq<int>, i: nat): seq<int>
    decreases |s| - i
  {
    var c := FirstChild(s, i);
    if i < |s| && c < |s| && s[i] > s[c] then SiftDown(Swap(s, i, c), c) else s
  }

  lemma SiftDownStep(s: seq<int>, i: nat)
    requires i < |s|
    ensures var c := FirstChild(s, i);
            SiftDown(s, i) == if c < |s| && s[i] > s[c] then SiftDown(Swap(s, i, c), c) else s
  {}

  /** A heap except that slot h may come too early for its ancestors. */
  ghost predicate HeapBelow(s: seq<int>, h: nat) {
    && (forall i: nat | 0 < i < |s| && i != h :: Ordered(s, i))
    && (forall c: nat | 0 < h < c < |s| && Parent(c) == h :: s[Parent(h)] <= s[c])
  }

  /** A heap except that slot i may come too late for its children. */
  ghost predicate HeapAbove(s: seq<int>, i: nat) {
    && (forall j: nat | 0 < j < |s| && Parent(j) != i :: Ordered(s, j))
    && (forall c: nat | 0 < i < c < |s| && Parent(c) == i :: s[Parent(i)] <= s[c])
  }

  lemma {:induction false} SiftUpHeap(s: seq<int>, h: nat)
    requires h < |s| && HeapBelow(s, h)
    ensures Heap(SiftUp(s, h))
    decreases h
  {
    if h > 0 && s[Parent(h)] > s[h] {
      var p := Parent(h);
      var t := Swap(s, p, h);
      forall i: nat | 0 < i < |t| && i != p ensures Ordered(t, i) {
        assert i != h ==> Ordered(s, i);
      }
      forall c: nat | 0 < p < c < |t| && Parent(c) == p ensures t[Parent(p)] <= t[c] {
        assert Ordered(s, p);
        assert c != h ==> Ordered(s, c);
      }
      SiftUpHeap(t, p);
    } else {
      forall i: nat | 0 < i < |s| ensures Ordered(s, i) {}
    }
  }

  lemma {:induction false} SiftDownHeap(s: seq<int>, i: nat)
    requires HeapAbove(s, i)
    ensures Heap(SiftDown(s, i))
    decreases |s| - i
  {
    var c := FirstChild(s, i);
    FirstChildMeaning(s, i);
    if i < |s| && c < |s| && s[i] > s[c] {
      var t := Swap(s, i, c);
      forall j: nat | 0 < j < |t| && Parent(j) != c ensures Ordered(t, j) {
        if Parent(j) != i {
          assert Ordered(s, j);
        }
      }
      forall d: nat | 0 < c < d < |t| && Parent(d) == c ensures t[Parent(c)] <= t[d] {
        assert Ordered(s, d);
      }
      SiftDownHeap(t, c);
    } else {
      forall j: nat | 0 < j < |s| ensures Ordered(s, j) {}
    }
  }

  lemma {:induction false} HeapMin(s: seq<int>, i: nat)
    requires Heap(s) && i < |s|
    ensures s[0] <= s[i]
  {
    if i == 0 {
    } else {
      assert Ordered(s, i);
      HeapMin(s, Parent(i));
    }
  }

  /** Changing the expiry at slot i of a heap and sifting down from i gives a heap again if and only if the new
      time is not before the parent's; in particular whenever the time was only moved later. */
  lemma RepairIff(s: seq<int>, i: nat, v: int)
    requires Heap(s) && i < |s|
    ensures Heap(SiftDown(s[i := v], i)) <==> i == 0 || s[Parent(i)] <= v
    ensures v >= s[i] ==> Heap(SiftDown(s[i := v], i))
  {
    var t := s[i := v];
    if i == 0 || s[Parent(i)] <= v {
      forall j: nat | 0 < j < |t| && Parent(j) != i ensures Ordered(t, j) {
        assert Ordered(s, j);
      }
      forall c: nat | 0 < i < c < |t| && Parent(c) == i ensures t[Parent(i)] <= t[c] {
        assert Ordered(s, c) && Ordered(s, i);
      }
      SiftDownHeap(t, i);
    } else {
      var c := FirstChild(t, i);
      FirstChildMeaning(t, i);
      if c < |t| {
        assert Ordered(s, c) && Ordered(s, i);
      }
      assert SiftDown(t, i) == t;
      assert !Ordered(t, i);
    }
    if v >= s[i] && i > 0 {
      assert Ordered(s, i);
    }
  }

  /** Sifting down moves nothing unless the slot has a child that comes earlier. */
  lemma SiftDownStays(s: seq<int>, j: nat)
    requires forall c: nat | 0 < c < |s| && Parent(c) == j :: Ordered(s, c)
    ensures SiftDown(s, j) == s
  {
    FirstChildMeaning(s, j);
    var c := FirstChild(s, j);
    if c < |s| {
      assert Ordered(s, c);
    }
  }

  ghost predicate BeforeChildren(s: seq<int>, i: nat, v: int) {
    forall c: nat | 0 < c < |s| && Parent(c) == i :: v <= s[c]
  }

  /**
   * When heap order survives a change of the time at slot i to v followed by sifting down from slot j. If j is i,
   * the parent must not come later. If j is another slot, a time moved later must not pass a child of i; a time moved
   * earlier must not pass the parent of i, or, if j is that parent and changes places with i, the parent of j.
   */
  ghost predicate Survives(s: seq<int>, i: nat, j: nat, v: int)
    requires i < |s|
  {
    if j == i then i == 0 || s[Parent(i)] <= v
    else if v >= s[i] then BeforeChildren(s, i, v)
    else if i > 0 && j == Parent(i) then j == 0 || s[Parent(j)] <= v
    else i == 0 || s[Parent(i)] <= v
  }

  /** Changed at i, sifted from elsewhere: where nothing moves. */
  lemma StaleStays(s: seq<int>, i: nat, j: nat, v: int)
    requires Heap(s) && i < |s| && j != i && (v >= s[i] || i == 0 || j != Parent(i))
    ensures SiftDown(s[i := v], j) == s[i := v]
  {
    var t := s[i := v];
    forall c: nat | 0 < c < |t| && Parent(c) == j ensures Ordered(t, c) {
      assert Ordered(s, c);
    }
    SiftDownStays(t, j);
  }

  lemma StaleLater(s: seq<int>, i: nat, j: nat, v: int)
    requires Heap(s) && i < |s| && j != i && v >= s[i]
    ensures Heap(SiftDown(s[i := v], j)) <==> BeforeChildren(s, i, v)
  {
    var t := s[i := v];
    StaleStays(s, i, j, v);
    if BeforeChildren(s, i, v) {
      forall c: nat | 0 < c < |t| ensures Ordered(t, c) {
        assert Ordered(s, c);
      }
    } else {
      var c: nat :| 0 < c < |s| && Parent(c) == i && v > s[c];
      assert !Ordered(t, c);
    }
  }

  lemma StaleEarlier(s: seq<int>, i: nat, j: nat, v: int)
    requires Heap(s) && i < |s| && j != i && v < s[i] && (i == 0 || j != Parent(i))
    ensures Heap(SiftDown(s[i := v], j)) <==> i == 0 || s[Parent(i)] <= v
  {
    var t := s[i := v];
    StaleStays(s, i, j, v);
    if i == 0 || s[Parent(i)] <= v {
      forall c: nat | 0 < c < |t| ensures Ordered(t, c) {
        assert Ordered(s, c);
      }
    } else {
      assert !Ordered(t, i);
    }
  }

  /** Changed to an earlier time and sifted from the parent: parent and child change places, and no more. */
  lemma StaleParent(s: seq<int>, i: nat, v: int)
    requires Heap(s) && 0 < i < |s| && v < s[Parent(i)]
    ensures SiftDown(s[i := v], Parent(i)) == s[i := s[Parent(i)]][Parent(i) := v]
  {
    var t, j := s[i := v], Parent(i);
    FirstChildMeaning(t, j);
    forall c: nat | 0 < c < |t| && Parent(c) == j && c != i ensures t[c] > v {
      assert Ordered(s, c);
    }
    assert FirstChild(t, j) == i;
    var u := Swap(t, j, i);
    assert u == s[i := s[j]][j := v];
    forall c: nat | 0 < c < |u| && Parent(c) == i ensures Ordered(u, c) {
      assert Ordered(s, c) && Ordered(s, i);
    }
    SiftDownStays(u, i);
  }

  lemma StaleParentIff(s: seq<int>, i: nat, v: int)
    requires Heap(s) && 0 < i < |s| && v < s[i]
    ensures var j := Parent(i); Heap(SiftDown(s[i := v], j)) <==> j == 0 || s[Parent(j)] <= v
  {
    var j := Parent(i);
    if v < s[j] {
      StaleParent(s, i, v);
      var u := s[i := s[j]][j := v];
      if j == 0 || s[Parent(j)] <= v {
        forall c: nat | 0 < c < |u| ensures Ordered(u, c) {
          assert Ordered(s, c) && Ordered(s, i);
        }
      } else {
        assert !Ordered(u, j);
      }
    } else {
      var t := s[i := v];
      forall c: nat | 0 < c < |t| ensures Ordered(t, c) {
        assert Ordered(s, c);
      }
      SiftDownStays(t, j);
      assert j > 0 ==> Ordered(s, j);
    }
  }

  /** The exact condition, whichever slot the sifting starts from. */
  lemma RescheduleIff(s: seq<int>, i: nat, j: nat, v: int)
    requires Heap(s) && i < |s|
    ensures Heap(SiftDown(s[i := v], j)) <==> Survives(s, i, j, v)
  {
    if j == i {
      RepairIff(s, i, v);
    } else if v >= s[i] {
      StaleLater(s, i, j, v);
    } else if i > 0 && j == Parent(i) {
      StaleParentIff(s, i, v);
    } else {
      StaleEarlier(s, i, j, v);
    }
  }

  /** No time of s comes after v. */
  ghost predicate NoneLater(s: seq<int>, v: int) {
    forall i | 0 <= i < |s| :: s[i] <= v
  }

  /** A time that comes last stays where it is added. */
  lemma LastStays(s: seq<int>, v: int)
    requires NoneLater(s, v)
    ensures SiftUp(s + [v], |s|) == s + [v]
    ensures |s| > 0 ==> s[Parent(|s|)] <= v
  {}

  /** Adding a time at the end and sifting it up keeps heap order. */
  lemma PushHeap(s: seq<int>, v: int)
    requires Heap(s)
    ensures Heap(SiftUp(s + [v], |s|))
  {
    var t := s + [v];
    forall i: nat | 0 < i < |t| && i != |s| ensures Ordered(t, i) {
      assert Ordered(s, i);
    }
    SiftUpHeap(t, |s|);
  }

  /** Moving the last time to the root, dropping the old root and sifting down keeps heap order. */
  lemma PopHeap(s: seq<int>)
    requires Heap(s) && |s| > 0
    ensures Heap(SiftDown(Swap(s, 0, |s| - 1)[..|s| - 1], 0))
  {
    var t := Swap(s, 0, |s| - 1)[..|s| - 1];
    forall j: nat | 0 < j < |t| && Parent(j) != 0 ensures Ordered(t, j) {
      assert Ordered(s, j);
    }
    SiftDownHeap(t, 0);
  }

  // ---------------------------------------------------------------- the heap of timers

  class Timer {
    var expire: int
    var index: int   // -1 before it is pushed, -2 once it has fired

    constructor (expire: int)
      ensures this.expire == expire && index == -1
    {
      this.expire, index := expire, -1;
    }
  }

  lemma DroppedPermutes<T>(s: seq<T>)
    requires |s| > 0
    ensures multiset(Swap(s, 0, |s| - 1)[..|s| - 1]) + multiset{s[0]} == multiset(s)
  {
    var t := Swap(s, 0, |s| - 1);
    SwapPermutes(s, 0, |s| - 1);
    assert t == t[..|s| - 1] + [s[0]];
  }

  class TimerHeap {
    const vec: array<Timer?>
    var nums: nat
    /** The timers in slots 0 to nums - 1 and their expiry times. */
    ghost var timers: seq<Timer>
    ghost var times: seq<int>

    ghost predicate Slots()
      reads this, vec, timers
    {
      && |timers| == |times| == nums <= vec.Length
      && forall i | 0 <= i < nums :: vec[i] == timers[i] && timers[i].expire == times[i]
    }

    /** The slots in use hold timers in heap order of expiry. */
    ghost predicate Valid()
      reads this, vec, timers
    {
      Slots() && Heap(times)
    }

    constructor (capacity: nat)
      ensures Valid() && timers == [] && vec.Length == capacity && fresh(vec)
    {
      vec := new Timer?[capacity](_ => null);
      nums := 0;
      timers, times := [], [];
    }

    method SwapSlots(i: nat, j: nat)
      requires Slots() && i < nums && j < nums && i != j
      modifies vec, `timers, `times
      ensures Slots() && timers == Swap(old(timers), i, j)
      ensures multiset(timers) == multiset(old(timers))
      ensures times == Swap(old(times), i, j)
    {
      SwapPermutes(timers, i, j);
      vec[i], vec[j] := vec[j], vec[i];
      timers, times := Swap(timers, i, j), Swap(times, i, j);
    }

    /** Sifts the timer at slot start towards the root and returns where it ends up. */
    method Up(start: nat) returns (h: nat)
      requires Slots() && start < nums
      modifies vec, `timers, `times
      ensures Slots() && multiset(timers) == multiset(old(timers))
      ensures times == SiftUp(old(times), start)
      ensures h < nums && timers[h] == old(timers)[start]
      ensures h == 0 || (timers[0] == old(timers)[0] && times[Parent(h)] <= times[h])
      ensures h == 0 < start ==> old(times)[start] < old(times)[0]
      ensures start == 0 || old(times)[Parent(start)] <= old(times)[start] ==> h == start && timers == old(timers)
    {
      h := start;
      while h > 0
        invariant Slots() && h < nums && timers[h] == old(timers)[start] && times[h] == old(times)[start]
        invariant h > 0 ==> timers[0] == old(timers)[0] && times[0] == old(times)[0]
        invariant h == 0 < start ==> old(times)[start] < old(times)[0]
        invariant h == start ==> timers == old(timers) && times == old(times)
        invariant h < start ==> old(times)[start] < old(times)[Parent(start)]
        invariant multiset(timers) == multiset(old(timers))
        invariant SiftUp(times, h) == SiftUp(old(times), start)
      {
        var p := (h - 1) / 2;
        if vec[p].expire > vec[h].expire {
          SwapSlots(p, h);
        } else {
          break;
        }
        h := p;
      }
    }

    /** Puts a timer into the slot behind the last one. */
    method AddLast(timer: Timer)
      requires Slots() && nums < vec.Length
      modifies `nums, `timers, `times, vec
      ensures Slots() && nums == old(nums) + 1
      ensures timers == old(timers) + [timer] && times == old(times) + [timer.expire]
    {
      nums := nums + 1;
      vec[nums - 1] := timer;
      timers, times := timers + [timer], times + [timer.expire];
    }

    /** Adds a timer and returns the slot it ends up in. */
    method Place(timer: Timer) returns (h: nat)
      requires Valid() && nums < vec.Length
      modifies `nums, `timers, `times, vec
      ensures Valid() && nums == old(nums) + 1 && h < nums && timers[h] == timer
      ensures multiset(timers) == multiset(old(timers)) + multiset{timer}
      ensures times == SiftUp(old(times) + [timer.expire], |old(times)|)
      ensures timers[0] == if old(nums) == 0 || timer.expire < old(times)[0] then timer else old(timers)[0]
      ensures NoneLater(old(times), timer.expire) ==> h == old(nums) && timers == old(timers) + [timer]
    {
      PushHeap(times, timer.expire);
      if NoneLater(times, timer.expire) {
        LastStays(times, timer.expire);
      }
      AddLast(timer);
      h := Up(nums - 1);
      HeapMin(times, h);
    }

    /** The source writes out of bounds when the array is full. */
    method PushTimer(timer: Timer?)
      requires Valid() && (timer != null ==> nums < vec.Length)
      modifies `nums, `timers, `times, vec, (if timer == null then {} else {timer})`index
      ensures Valid() && nums == old(nums) + if timer == null then 0 else 1
      ensures timer == null ==> timers == old(timers)
      ensures timer != null ==> multiset(timers) == multiset(old(timers)) + multiset{timer}
      ensures timer != null ==> times == SiftUp(old(times) + [timer.expire], |old(times)|)
      ensures timer != null ==> 0 <= timer.index < nums && timers[timer.index] == timer
      ensures timer != null ==>
                timers[0] == if old(nums) == 0 || timer.expire < old(times)[0] then timer else old(timers)[0]
      ensures timer != null && NoneLater(old(times), timer.expire) ==>
                timer.index == old(nums) && timers == old(timers) + [timer]
    {
      if timer == null {
        return;
      }
      var h := Place(timer);
      timer.index := h;
    }

    /** A timer that expires last, as a new connection's does, displaces no other. */
    method PushLatest(timer: Timer)
      requires Valid() && nums < vec.Length && NoneLater(times, timer.expire)
      modifies `nums, `timers, `times, vec, timer`index
      ensures Valid() && nums == old(nums) + 1 && timer.index == old(nums)
      ensures timers == old(timers) + [timer] && times == old(times) + [timer.expire]
    {
      LastStays(times, timer.expire);
      PushTimer(timer);
    }

    /** The child that the source would swap with, or nums if there is none. */
    method ChooseChild(index: nat) returns (child: nat)
      requires Slots() && index < nums
      ensures child == FirstChild(times, index)
    {
      if 2 * index + 2 < nums {
        child := if vec[2 * index + 1].expire < vec[2 * index + 2].expire then 2 * index + 1 else 2 * index + 2;
      } else if 2 * index + 1 < nums {
        child := 2 * index + 1;
      } else {
        child := nums;
      }
    }

    /** Sifts the timer at slot start towards the leaves. */
    method Down(start: nat)
      requires Slots()
      modifies vec, `timers, `times
      ensures Slots() && multiset(timers) == multiset(old(timers))
      ensures times == SiftDown(old(times), start)
    {
      var index := start;
      while index < nums
        invariant Slots()
        invariant multiset(timers) == multiset(old(timers))
        invariant SiftDown(times, index) == SiftDown(old(times), start)
        decreases nums - index
      {
        var child := ChooseChild(index);
        SiftDownStep(times, index);
        if child < nums && vec[index].expire > vec[child].expire {
          SwapSlots(index, child);
          index := child;
        } else {
          break;
        }
      }
    }

    /** What a connection does to its timer when something arrives: unless the timer is out of the heap, it changes
        the expiry and sifts down from the slot that the timer has recorded, which need not be the slot it is in. */
    method Reschedule(timer: Timer, expire: int)
      requires Valid() && forall i, j | 0 <= i < j < nums :: timers[i] != timer || timers[j] != timer
      modifies vec, `timers, `times, timer`expire
      ensures Slots() && multiset(timers) == multiset(old(timers))
      ensures timer.expire == if timer.index >= 0 then expire else old(timer.expire)
      ensures timer.index < 0 || timer !in old(timers) ==> Valid() && times == old(times)
      ensures forall i: nat | timer.index >= 0 && i < |old(timers)| && old(timers)[i] == timer ::
                && times == SiftDown(old(times)[i := expire], timer.index)
                && (Valid() <==> Survives(old(times), i, timer.index, expire))
    {
      if timer.index < 0 {
        return;
      }
      if timer in timers {
        ghost var i: nat :| i < nums && timers[i] == timer;
        RescheduleIff(times, i, timer.index, expire);
        times := times[i := expire];
      } else {
        SiftDownStays(times, timer.index);
      }
      timer.expire := expire;
      Down(timer.index);
    }

    /** Removes the timer that expires first and marks it -2. */
    method PopTimer()
      requires Valid()
      modifies `nums, `timers, `times, vec, (if nums > 0 then {timers[0]} else {})`index
      ensures Valid()
      ensures old(nums) == 0 ==> nums == 0
      ensures old(nums) > 0 ==>
                && nums == old(nums) - 1
                && multiset(timers) + multiset{old(timers)[0]} == multiset(old(timers))
                && old(timers)[0].index == -2
    {
      if nums == 0 {
        return;
      }
      PopHeap(times);
      RemoveTop();
      Down(0);
    }

    /** Swaps the first and the last timer, marks the old first one -2 and drops it. */
    method DropTop()
      requires Slots() && nums > 0
      modifies `nums, `timers, `times, vec, {timers[0]}`index
      ensures Slots() && nums == old(nums) - 1
      ensures timers == Swap(old(timers), 0, nums)[..nums] && times == Swap(old(times), 0, nums)[..nums]
      ensures old(timers)[0].index == -2
    {
      vec[0], vec[nums - 1] := vec[nums - 1], vec[0];
      vec[nums - 1].index := -2;
      vec[nums - 1] := null;
      nums := nums - 1;
      timers, times := Swap(timers, 0, nums)[..nums], Swap(times, 0, nums)[..nums];
    }

    method RemoveTop()
      requires Slots() && nums > 0
      modifies `nums, `timers, `times, vec, {timers[0]}`index
      ensures Slots() && nums == old(nums) - 1
      ensures times == Swap(old(times), 0, nums)[..nums]
      ensures multiset(timers) + multiset{old(timers)[0]} == multiset(old(timers))
      ensures old(timers)[0].index == -2
    {
      DroppedPermutes(timers);
      DropTop();
    }

    method TopTimer() returns (timer: Timer?)
      requires Slots()
      ensures timer == if nums == 0 then null else timers[0]
    {
      timer := if nums != 0 then vec[0] else null;
    }

    /** A push, as far as the top of the heap is concerned. */
    method PushBy(timer: Timer)
      requires Valid() && 0 < nums < vec.Length
      modifies `nums, `timers, `times, vec, timer`index
      ensures Valid() && nums == old(nums) + 1
      ensures multiset(timers) == multiset(old(timers)) + multiset{timer}
      ensures timers[0] == if timer.expire < old(timers)[0].expire then timer else old(timers)[0]
    {
      PushTimer(timer);
    }

    /** What a callback that pushes timers does to the top of the heap. */
    method PushAll(pushed: seq<Timer>)
      requires Valid() && nums > 0 && nums + |pushed| <= vec.Length
      modifies `nums, `timers, `times, vec, (set t | t in pushed)`index
      ensures Valid() && nums == old(nums) + |pushed|
      ensures multiset(timers) == multiset(old(timers)) + multiset(pushed)
      ensures timers[0] == old(timers)[0] || (timers[0] in pushed && timers[0].expire < old(timers)[0].expire)
      ensures timers[0] == old(timers)[0] <==> NoneEarlier(pushed, |pushed|, old(timers)[0].expire)
    {
      ghost var top := timers[0];
      assert pushed[..0] == [];
      for i := 0 to |pushed|
        invariant Valid() && nums == old(nums) + i
        invariant multiset(timers) == multiset(old(timers)) + multiset(pushed[..i])
        invariant timers[0] == top || (timers[0] in pushed && timers[0].expire < top.expire)
        invariant timers[0] == top <==> NoneEarlier(pushed, i, top.expire)
      {
        TakeSnoc(pushed, i);
        PushBy(pushed[i]);
        NoneEarlierStep(pushed, i, top.expire);
      }
      assert pushed[..|pushed|] == pushed;
    }

    /**
     * One turn of the loop in tick with a callback that pushes timers. The callback runs before the pop, so what is
     * popped is the timer that was fired exactly when no pushed timer expires before it; otherwise a pushed timer is
     * dropped without being fired, and the fired one stays in the heap.
     */
    method FireAndPush(pushed: seq<Timer>) returns (popped: Timer)
      requires Valid() && nums > 0 && nums + |pushed| <= vec.Length
      modifies `nums, `timers, `times, vec, (set t | t in pushed)`index, {timers[0]}`index
      ensures Valid() && popped.index == -2
      ensures multiset(timers) + multiset{popped} == multiset(old(timers)) + multiset(pushed)
      ensures popped == old(timers)[0] <==> NoneEarlier(pushed, |pushed|, old(timers)[0].expire)
      ensures popped == old(timers)[0] || popped in pushed
    {
      PushAll(pushed);
      popped := vec[0];
      PopTimer();
    }

    /** One turn of the loop in tick: fires the first timer if it has expired at time cur. */
    method FireTop(cur: int, ghost fired: seq<Timer>, ghost all: seq<Timer>) returns (timer: Timer?)
      requires Valid() && Ticked(fired, timers, all, cur)
      modifies `nums, `timers, `times, vec, (if nums > 0 then {timers[0]} else {})`index
      ensures Valid()
      ensures timer == null ==> Ticked(fired, timers, all, cur) && forall i | 0 <= i < nums :: timers[i].expire > cur
      ensures timer == null ==> old(nums) > 0 ==> old(timers)[0].index == old(timers[0].index)
      ensures timer != null ==> nums < old(nums) && timer == old(timers)[0] && Ticked(fired + [timer], timers, all, cur)
    {
      timer := TopTimer();
      forall i: nat | i < nums ensures timers[0].expire <= timers[i].expire {
        HeapMin(times, i);
      }
      if timer == null || timer.expire > cur {
        return null;
      }
      ghost var before := timers;
      PopTimer();
      assert Ticked(fired, before, all, cur);
      FireNext(fired, timer, before, timers, all, cur);
    }

    /** Fires the timers that have expired at time cur; their callbacks leave the heap alone. Exactly those
        timers are fired, each once, in nondecreasing order of expiry, and exactly those are marked -2. */
    method Tick(cur: int) returns (fired: seq<Timer>)
      requires Valid()
      modifies `nums, `timers, `times, vec, (set t | t in timers)`index
      ensures Valid()
      ensures multiset(fired) + multiset(timers) == multiset(old(timers))
      ensures FiredInOrder(fired, cur)
      ensures forall i | 0 <= i < nums :: timers[i].expire > cur
      ensures forall t | t in old(timers) && t !in fired :: t.index == old(t.index)
    {
      fired := [];
      while nums != 0
        invariant Valid() && Ticked(fired, timers, old(timers), cur)
        invariant forall t | t in old(timers) && t !in fired :: t.index == old(t.index)
        decreases nums
      {
        TickedMembers(fired, timers, old(timers), cur);
        var timer := FireTop(cur, fired, old(timers));
        if timer == null {
          break;
        }
        var t: Timer := timer;
        fired := fired + [t];
      }
    }
  }

  /** None of the first n timers expires before the given time. */
  ghost predicate NoneEarlier(ts: seq<Timer>, n: nat, expire: int)
    requires n <= |ts|
    reads ts
  {
    forall i | 0 <= i < n :: ts[i].expire >= expire
  }

  lemma NoneEarlierStep(ts: seq<Timer>, n: nat, expire: int)
    requires n < |ts|
    ensures NoneEarlier(ts, n + 1, expire) <==> NoneEarlier(ts, n, expire) && ts[n].expire >= expire
  {}

  lemma TakeSnoc<T>(s: seq<T>, i: nat)
    requires i < |s|
    ensures multiset(s[..i + 1]) == multiset(s[..i]) + multiset{s[i]}
  {
    assert s[..i + 1] == s[..i] + [s[i]];
  }

  /** The fired timers were due at cur, are marked, and were fired in nondecreasing order of expiry. */
  ghost predicate FiredInOrder(fired: seq<Timer>, cur: int)
    reads fired
  {
    && (forall i | 0 <= i < |fired| :: fired[i].expire <= cur && fired[i].index == -2)
    && (forall i, j | 0 <= i < j < |fired| :: fired[i].expire <= fired[j].expire)
  }

  /** fired and rest share out all, and no timer of rest expires before a fired one. */
  ghost predicate Ticked(fired: seq<Timer>, rest: seq<Timer>, all: seq<Timer>, cur: int)
    reads fired, rest
  {
    && multiset(fired) + multiset(rest) == multiset(all)
    && FiredInOrder(fired, cur)
    && forall i, j | 0 <= i < |fired| && 0 <= j < |rest| :: fired[i].expire <= rest[j].expire
  }

  lemma TickedMembers(fired: seq<Timer>, rest: seq<Timer>, all: seq<Timer>, cur: int)
    requires Ticked(fired, rest, all, cur)
    ensures forall t | t in rest :: t in all
  {
    forall t | t in rest ensures t in all {
      assert t in multiset(fired) + multiset(rest);
    }
  }

  lemma FireNext(fired: seq<Timer>, timer: Timer, before: seq<Timer>, after: seq<Timer>, all: seq<Timer>, cur: int)
    requires Ticked(fired, before, all, cur) && multiset(after) + multiset{timer} == multiset(before)
    requires timer.expire <= cur && timer.index == -2
    requires forall i | 0 <= i < |before| :: timer.expire <= before[i].expire
    ensures Ticked(fired + [timer], after, all, cur)
  {
    forall t | t == timer || t in after ensures t in before {
      assert t in multiset(after) + multiset{timer};
    }
    forall i, j | 0 <= i < |fired| + 1 && 0 <= j < |after| ensures (fired + [timer])[i].expire <= after[j].expire {
      assert after[j] in before;
    }
    assert timer in before;
  }

  /** Two pushes make an index stale: the first timer is displaced to slot 1 and still records slot 0. */
  method PushTwo() returns (heap: TimerHeap, a: Timer, b: Timer)
    ensures fresh(heap) && fresh(heap.vec) && fresh(a) && fresh(b) && heap.vec.Length == 4
    ensures heap.Valid() && heap.timers == [b, a] && heap.times == [3, 5]
    ensures a.index == 0 && a.expire == 5 && b.expire == 3
  {
    heap := new TimerHeap(4);
    a := new Timer(5);
    b := new Timer(3);
    heap.PushTimer(a);
    heap.PushTimer(b);
    TheOther(heap.timers, a, b);
  }

  lemma TheOther(ts: seq<Timer>, a: Timer, b: Timer)
    requires |ts| == 2 && multiset(ts) == multiset{a, b} && ts[0] == b
    ensures ts == [b, a]
  {
    assert ts == [b, ts[1]];
    assert multiset(ts) == multiset{b, ts[1]};
    assert multiset{b, ts[1]} - multiset{b} == multiset{ts[1]};
  }

  /** Timers pushed in the order in which they expire, as connections push them, stay in that order. */
  method PushInOrder() returns (heap: TimerHeap, a: Timer, b: Timer)
    ensures fresh(heap) && fresh(heap.vec) && fresh(a) && fresh(b) && heap.vec.Length == 4
    ensures heap.Valid() && heap.timers == [a, b] && heap.times == [1, 2] && a.index == 0 && b.index == 1
  {
    heap := new TimerHeap(4);
    a := new Timer(1);
    b := new Timer(2);
    heap.PushLatest(a);
    heap.PushLatest(b);
  }

  method PushFour() returns (heap: TimerHeap, a: Timer, b: Timer, c: Timer, d: Timer)
    ensures fresh(heap) && fresh(heap.vec) && fresh(a) && fresh(b) && fresh(c) && fresh(d)
    ensures heap.Valid() && heap.timers == [a, b, c, d] && heap.times == [1, 2, 3, 4] && a.index == 0 && b.index == 1
  {
    heap, a, b := PushInOrder();
    c := new Timer(3);
    heap.PushLatest(c);
    d := new Timer(4);
    heap.PushLatest(d);
  }

  lemma OneOfFour(ts: seq<Timer>, was: seq<Timer>)
    requires |ts| == |was| == 4 && multiset(ts) == multiset(was)
    requires forall i | 0 <= i < 4 && i != 1 :: was[i].expire != ts[0].expire
    ensures ts[0] == was[1]
  {
    assert ts[0] in multiset(was);
  }

  /** Postponing the first of them moves the second up to slot 0, with slot 1 still recorded. */
  method PostponeFirst() returns (heap: TimerHeap, b: Timer)
    ensures fresh(heap) && fresh(heap.vec) && fresh(b)
    ensures heap.Valid() && heap.times == [2, 4, 3, 5] && heap.timers[0] == b && b.index == 1
  {
    var a, c, d;
    heap, a, b, c, d := PushFour();
    ghost var was := heap.timers;
    FirstPostponed();
    heap.Reschedule(a, 5);
    OneOfFour(heap.timers, was);
  }

  lemma FirstPostponed()
    ensures SiftDown([1, 2, 3, 4][0 := 5], 0) == [2, 4, 3, 5]
    ensures Survives([1, 2, 3, 4], 0, 0, 5)
  {
    var s, t := [5, 2, 3, 4], [2, 5, 3, 4];
    assert [1, 2, 3, 4][0 := 5] == s;
    SiftDownStep(s, 0);
    assert Swap(s, 0, 1) == t;
    SiftDownStep(t, 1);
    assert Swap(t, 1, 3) == [2, 4, 3, 5];
  }

  /** Postponing the second then sifts from slot 1, nothing moves, and heap order is lost at slot 0. */
  method PostponeStale() returns (heap: TimerHeap)
    ensures heap.Slots() && !heap.Valid()
  {
    var b;
    heap, b := PostponeFirst();
    assert !BeforeChildren(heap.times, 0, 6) by {
      assert Parent(1) == 0;
    }
    heap.Reschedule(b, 6);
  }
}
