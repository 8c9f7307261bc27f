/** The server's file cache: file contents kept in most-recently-used order and revalidated against the
    modification time of the file on every hit. */
module FileCache {
  import opened Options
  import opened Recency

  // ---------------------------------------------------------------- the file system

  type Content = seq<char>

  /** A modification time. */
  datatype Stamp = Stamp(sec: int, nsec: int)

  /** A file: its content if it exists now, and the time of its last change (kept for deleted files). */
  datatype File = File(content: Option<Content>, stamp: Stamp)

  type Files = map<string, File>

  predicate Before(a: Stamp, b: Stamp) {
    a.sec < b.sec || (a.sec == b.sec && a.nsec < b.nsec)
  }

  predicate Exists(fs: Files, k: string) {
    k in fs && fs[k].content.Some?
  }

  /** Time moves forward: whenever the content of a file changes, its modification time strictly increases. */
  ghost predicate Change(fs: Files, fs': Files) {
    forall k | k in fs ::
      && k in fs'
      && (Before(fs[k].stamp, fs'[k].stamp) || fs'[k] == fs[k])
  }

  // ---------------------------------------------------------------- specification

  /** One cached file; the cache is a sequence of them, most recently used first. */
  datatype Item = Item(key: string, val: Content, mtime: Stamp, fsize: nat)

  function Keys(s: seq<Item>): (ks: seq<string>)
    ensures |ks| == |s| && forall i | 0 <= i < |s| :: ks[i] == s[i].key
  {
    seq(|s|, i requires 0 <= i < |s| => s[i].key)
  }

  /** The test the cache makes on a hit: has the file changed since it was read? */
  predicate Expired(cached: Stamp, now: Stamp) {
    now.sec > cached.sec || now.nsec > cached.nsec
  }

  function Load(fs: Files, k: string): Item
    requires Exists(fs, k)
  {
    Item(k, fs[k].content.value, fs[k].stamp, |fs[k].content.value|)
  }

  function AfterGet(s: seq<Item>, fs: Files, k: string): seq<Item> {
    var i := Find(Keys(s), k);
    if i == |s| then s
    else
      var moved := ToFront(s, i);
      if Exists(fs, k) && Expired(s[i].mtime, fs[k].stamp) then moved[0 := Load(fs, k)] else moved
  }

  /** What getValue returns; None is the null pointer. */
  function Answer(s: seq<Item>, fs: Files, k: string): Option<Content> {
    if Find(Keys(s), k) == |s| || !Exists(fs, k) then None else Some(AfterGet(s, fs, k)[0].val)
  }

  function AfterSet(s: seq<Item>, cap: Capacity, fs: Files, k: string): seq<Item>
    requires k in Keys(s) || Exists(fs, k)
  {
    if k in Keys(s) then s
    else [Load(fs, k)] + if |s| == cap then s[..|s| - 1] else s
  }

  function Size(s: seq<Item>, k: string): nat {
    var i := Find(Keys(s), k);
    if i == |s| then 0 else s[i].fsize
  }

  // ---------------------------------------------------------------- agreement with the file system

  /** A cached file is no newer than the real one, and the same if their times are the same. */
  ghost predicate ItemAgrees(x: Item, fs: Files) {
    && x.fsize == |x.val|
    && x.key in fs
    && (x.mtime == fs[x.key].stamp || Before(x.mtime, fs[x.key].stamp))
    && (x.mtime == fs[x.key].stamp && fs[x.key].content.Some? ==> x.val == fs[x.key].content.value)
  }

  ghost predicate Agrees(s: seq<Item>, fs: Files) {
    forall i: nat | i < |s| :: ItemAgrees(s[i], fs)
  }

  /** As long as time moves forward, the test made on a hit is exact. */
  lemma ExpiredExact(cached: Stamp, now: Stamp)
    requires cached == now || Before(cached, now)
    ensures Expired(cached, now) <==> cached != now
  {}

  lemma ChangeAgrees(s: seq<Item>, fs: Files, fs': Files)
    requires Agrees(s, fs) && Change(fs, fs')
    ensures Agrees(s, fs')
  {
    forall i: nat | i < |s| ensures ItemAgrees(s[i], fs') {
      assert ItemAgrees(s[i], fs);
    }
  }

  lemma GetAgrees(s: seq<Item>, fs: Files, k: string)
    requires Agrees(s, fs)
    ensures Agrees(AfterGet(s, fs, k), fs)
  {
    var i := Find(Keys(s), k);
    if i < |s| {
      ToFrontAt(s, i);
      var s' := AfterGet(s, fs, k);
      forall j: nat | j < |s'| ensures ItemAgrees(s'[j], fs) {
        assert ItemAgrees(s[if j == 0 then i else if j <= i then j - 1 else j], fs);
      }
    }
  }

  lemma SetAgrees(s: seq<Item>, cap: Capacity, fs: Files, k: string)
    requires Agrees(s, fs) && Exists(fs, k)
    ensures Agrees(AfterSet(s, cap, fs, k), fs)
  {
    var s' := AfterSet(s, cap, fs, k);
    if s' != s {
      forall j: nat | j < |s'| ensures ItemAgrees(s'[j], fs) {
        assert j > 0 ==> s'[j] == s[j - 1] && ItemAgrees(s[j - 1], fs);
      }
    }
  }

  /** A set changes the cache exactly when the key is not there: it never refreshes a copy or moves it. */
  lemma SetChangesIff(s: seq<Item>, cap: Capacity, fs: Files, k: string)
    requires k in Keys(s) || Exists(fs, k)
    ensures AfterSet(s, cap, fs, k) == s <==> k in Keys(s)
  {
    if k !in Keys(s) {
      assert Keys(AfterSet(s, cap, fs, k))[0] == k;
    }
  }

  /** A hit returns the present content of the file, and the recorded size is its length. */
  lemma HitIsCurrent(s: seq<Item>, fs: Files, k: string)
    requires Agrees(s, fs) && Answer(s, fs, k).Some?
    ensures Answer(s, fs, k) == fs[k].content
    ensures Size(AfterGet(s, fs, k), k) == |fs[k].content.value|
  {
    var i := Find(Keys(s), k);
    ToFrontAt(s, i);
    assert ItemAgrees(s[i], fs);
    ExpiredExact(s[i].mtime, fs[k].stamp);
    assert Keys(AfterGet(s, fs, k))[0] == k;
  }

  /** What the server does for a file that exists: get, set on a null answer, get again, and read the size.
      The second get returns exactly the present content and the size is its length. */
  lemma ServedIsCurrent(s: seq<Item>, cap: Capacity, fs: Files, k: string)
    requires Agrees(s, fs) && Exists(fs, k)
    ensures var s1 := AfterGet(s, fs, k);
            var s2 := if Answer(s, fs, k) == None then AfterSet(s1, cap, fs, k) else s1;
            && Answer(s2, fs, k) == fs[k].content
            && Size(AfterGet(s2, fs, k), k) == |fs[k].content.value|
  {
    var s1 := AfterGet(s, fs, k);
    GetAgrees(s, fs, k);
    if Answer(s, fs, k) == None {
      var s2 := AfterSet(s1, cap, fs, k);
      SetAgrees(s1, cap, fs, k);
      assert Keys(s2)[0] == k;
      HitIsCurrent(s2, fs, k);
    } else {
      ToFrontAt(s, Find(Keys(s), k));
      assert Keys(s1)[0] == k;
      HitIsCurrent(s1, fs, k);
    }
  }

  // ---------------------------------------------------------------- runs

  /** `uses` is history: the keys hit or inserted so far, in order. */
  datatype State = State(items: seq<Item>, fs: Files, uses: seq<string>)

  ghost predicate GetStep(st: State, k: string, st': State) {
    st' == st.(items := AfterGet(st.items, st.fs, k),
               uses := if Find(Keys(st.items), k) < |st.items| then st.uses + [k] else st.uses)
  }

  /** setValue on a key that is not present asserts that the file exists. */
  ghost predicate SetStep(st: State, cap: Capacity, k: string, st': State) {
    && (k in Keys(st.items) || Exists(st.fs, k))
    && st' == st.(items := AfterSet(st.items, cap, st.fs, k),
                  uses := if k in Keys(st.items) then st.uses else st.uses + [k])
  }

  ghost predicate Next(cap: Capacity, st: State, st': State) {
    || (exists k :: GetStep(st, k, st'))
    || (exists k :: SetStep(st, cap, k, st'))
    || (Change(st.fs, st'.fs) && st' == st.(fs := st'.fs))
  }

  ghost predicate StepAt(cap: Capacity, run: seq<State>, n: nat) {
    0 < n < |run| && Next(cap, run[n - 1], run[n])
  }

  ghost predicate IsRun(cap: Capacity, run: seq<State>) {
    && |run| > 0
    && run[0].items == [] && run[0].uses == []
    && forall n: nat | 0 < n < |run| :: StepAt(cap, run, n)
  }

  ghost predicate Inv(cap: Capacity, st: State) {
    Agrees(st.items, st.fs) && MostRecent(Keys(st.items), st.uses, cap)
  }

  lemma GetInv(cap: Capacity, st: State, k: string, st': State)
    requires Inv(cap, st) && GetStep(st, k, st')
    ensures Inv(cap, st')
  {
    GetAgrees(st.items, st.fs, k);
    var i := Find(Keys(st.items), k);
    if i < |st.items| {
      GetKeys(st.items, st.fs, k);
      TouchKeeps(Keys(st.items), st.uses, cap, i);
    }
  }

  lemma GetKeys(s: seq<Item>, fs: Files, k: string)
    requires Find(Keys(s), k) < |s|
    ensures Keys(AfterGet(s, fs, k)) == ToFront(Keys(s), Find(Keys(s), k))
  {
    var i := Find(Keys(s), k);
    KeysToFront(s, i);
    var moved := ToFront(s, i);
    assert moved[0].key == k;
    if Exists(fs, k) {
      KeysSame(moved, Load(fs, k));
    }
  }

  lemma KeysToFront(s: seq<Item>, i: nat)
    requires i < |s|
    ensures Keys(ToFront(s, i)) == ToFront(Keys(s), i)
  {}

  lemma KeysSame(s: seq<Item>, x: Item)
    requires s != [] && s[0].key == x.key
    ensures Keys(s[0 := x]) == Keys(s)
  {}

  lemma SetInv(cap: Capacity, st: State, k: string, st': State)
    requires Inv(cap, st) && SetStep(st, cap, k, st')
    ensures Inv(cap, st')
  {
    if Find(Keys(st.items), k) == |st.items| {
      SetAgrees(st.items, cap, st.fs, k);
      SetKeys(st.items, cap, st.fs, k);
      InsertKeeps(Keys(st.items), st.uses, cap, k);
    }
  }

  lemma SetKeys(s: seq<Item>, cap: Capacity, fs: Files, k: string)
    requires Exists(fs, k) && Find(Keys(s), k) == |s| <= cap
    ensures k !in Keys(s)
    ensures Keys(AfterSet(s, cap, fs, k)) == [k] + if |Keys(s)| < cap then Keys(s) else Keys(s)[..|Keys(s)| - 1]
  {
    var kept := if |s| == cap then s[..|s| - 1] else s;
    assert Keys(kept) == if |s| < cap then Keys(s) else Keys(s)[..|s| - 1];
    assert Keys([Load(fs, k)] + kept) == [k] + Keys(kept);
  }

  lemma NextInv(cap: Capacity, st: State, st': State)
    requires Inv(cap, st) && Next(cap, st, st')
    ensures Inv(cap, st')
  {
    if k :| GetStep(st, k, st') {
      GetInv(cap, st, k, st');
    } else if k :| SetStep(st, cap, k, st') {
      SetInv(cap, st, k, st');
    } else {
      ChangeAgrees(st.items, st.fs, st'.fs);
    }
  }

  /** In every run of gets, sets and file changes the cache agrees with the file system and holds exactly the
      most recently hit or inserted keys, so what it evicts is the least recently used one. */
  lemma {:induction false} RunInv(cap: Capacity, run: seq<State>, n: nat)
    requires IsRun(cap, run) && n < |run|
    ensures Inv(cap, run[n])
  {
    if n == 0 {
    } else {
      RunInv(cap, run, n - 1);
      assert StepAt(cap, run, n);
      NextInv(cap, run[n - 1], run[n]);
    }
  }

  /** In every state of every run, a hit on k returns the present content of the file. */
  lemma RunHitIsCurrent(cap: Capacity, run: seq<State>, n: nat, k: string)
    requires IsRun(cap, run) && n < |run|
    ensures var st := run[n];
            var r := Answer(st.items, st.fs, k);
            && (r.Some? ==> Exists(st.fs, k) && r == st.fs[k].content)
            && (r.Some? <==> k in Keys(st.items) && Exists(st.fs, k))
  {
    RunInv(cap, run, n);
    var st := run[n];
    if Answer(st.items, st.fs, k).Some? {
      HitIsCurrent(st.items, st.fs, k);
    }
    var i := Find(Keys(st.items), k);
    assert i < |st.items| ==> Keys(st.items)[i] == k;
  }

  /** The cached copy that a hit on k finds. */
  function Found(st: State, k: string): Item
    requires Find(Keys(st.items), k) < |st.items|
  {
    st.items[Find(Keys(st.items), k)]
  }

  /** The size reported for a key is the length of the copy that a hit finds, and 0 for a key without one. */
  lemma RunSize(cap: Capacity, run: seq<State>, n: nat, k: string)
    requires IsRun(cap, run) && n < |run|
    ensures k in Keys(run[n].items) ==>
              Find(Keys(run[n].items), k) < |run[n].items| && Size(run[n].items, k) == |Found(run[n], k).val|
    ensures k !in Keys(run[n].items) ==> Size(run[n].items, k) == 0
  {
    RunInv(cap, run, n);
    var i := Find(Keys(run[n].items), k);
    if i < |run[n].items| {
      assert Keys(run[n].items)[i] == k;
      assert ItemAgrees(run[n].items[i], run[n].fs);
    }
  }

  // ---------------------------------------------------------------- runs in which files change in any way

  /** Gets, sets, and changes of files that may set any modification time, as restoring a backup does. */
  ghost predicate FreeNext(cap: Capacity, st: State, st': State) {
    || (exists k :: GetStep(st, k, st'))
    || (exists k :: SetStep(st, cap, k, st'))
    || st' == st.(fs := st'.fs)
  }

  ghost predicate FreeStepAt(cap: Capacity, run: seq<State>, n: nat) {
    0 < n < |run| && FreeNext(cap, run[n - 1], run[n])
  }

  ghost predicate IsFreeRun(cap: Capacity, run: seq<State>) {
    && |run| > 0
    && run[0].items == [] && run[0].uses == []
    && forall n: nat | 0 < n < |run| :: FreeStepAt(cap, run, n)
  }

  ghost predicate LoadedAt(run: seq<State>, m: nat, x: Item)
    requires m < |run|
  {
    Exists(run[m].fs, x.key) && x == Load(run[m].fs, x.key)
  }

  lemma GetMembers(s: seq<Item>, fs: Files, k: string, x: Item)
    requires x in AfterGet(s, fs, k)
    ensures x in s || (Exists(fs, k) && x == Load(fs, k))
  {}

  lemma SetMembers(s: seq<Item>, cap: Capacity, fs: Files, k: string, x: Item)
    requires Exists(fs, k) && x in AfterSet(s, cap, fs, k)
    ensures x in s || x == Load(fs, k)
  {}

  /** What a step leaves in the cache was there before or has just been read. */
  lemma FreeMembers(cap: Capacity, st: State, st': State, x: Item)
    requires FreeNext(cap, st, st') && x in st'.items
    ensures x in st.items || (Exists(st.fs, x.key) && x == Load(st.fs, x.key))
  {
    if k :| GetStep(st, k, st') {
      GetMembers(st.items, st.fs, k, x);
    } else if k :| SetStep(st, cap, k, st') {
      if Find(Keys(st.items), k) == |st.items| {
        SetMembers(st.items, cap, st.fs, k, x);
      }
    }
  }

  /** The copy x was in the cache after every step from m to n. */
  ghost predicate KeptSince(run: seq<State>, m: nat, n: nat, x: Item) {
    forall j: nat | m < j <= n < |run| :: x in run[j].items
  }

  /** Every cached copy was read from the file system at some step of the run and kept since. */
  lemma {:induction false} Provenance(cap: Capacity, run: seq<State>, n: nat, x: Item) returns (m: nat)
    requires IsFreeRun(cap, run) && n < |run| && x in run[n].items
    ensures m < n && LoadedAt(run, m, x) && KeptSince(run, m, n, x)
    decreases n
  {
    assert n > 0;
    assert FreeStepAt(cap, run, n);
    FreeMembers(cap, run[n - 1], run[n], x);
    if x in run[n - 1].items {
      m := Provenance(cap, run, n - 1, x);
    } else {
      m := n - 1;
    }
  }

  /**
   * In every such run, for every step m at which the cached copy was what the file was: a hit returns the content of
   * the file if and only if that is what it was at step m, or its time has grown since then in seconds or in
   * nanoseconds.
   */
  lemma FreeHitIff(cap: Capacity, run: seq<State>, n: nat, k: string, m: nat)
    requires IsFreeRun(cap, run) && m <= n < |run| && Answer(run[n].items, run[n].fs, k).Some?
    requires LoadedAt(run, m, Found(run[n], k))
    ensures var was, now := run[m].fs[k], run[n].fs[k];
            Answer(run[n].items, run[n].fs, k) == now.content <==>
            now.content == was.content || now.stamp.sec > was.stamp.sec || now.stamp.nsec > was.stamp.nsec
  {}

  /** There always is such a step: one from which on the copy was read and kept. */
  lemma HitWasRead(cap: Capacity, run: seq<State>, n: nat, k: string) returns (m: nat)
    requires IsFreeRun(cap, run) && n < |run| && Answer(run[n].items, run[n].fs, k).Some?
    ensures m < n && LoadedAt(run, m, Found(run[n], k)) && KeptSince(run, m, n, Found(run[n], k))
  {
    m := Provenance(cap, run, n, Found(run[n], k));
  }

  /** The failing case is real: a file replaced by one with an older time is served as it was. */
  lemma StaleRun() returns (run: seq<State>)
    ensures IsFreeRun(1, run) && |run| == 3
    ensures run[2].fs == map["f" := File(Some("new"), Stamp(4, 7))]
    ensures Answer(run[2].items, run[2].fs, "f") == Some("old")
  {
    var before := map["f" := File(Some("old"), Stamp(5, 7))];
    var after := map["f" := File(Some("new"), Stamp(4, 7))];
    var items := [Load(before, "f")];
    run := [State([], before, []), State(items, before, ["f"]), State(items, after, ["f"])];
    assert SetStep(run[0], 1, "f", run[1]);
    assert FreeStepAt(1, run, 1) && FreeStepAt(1, run, 2);
    assert Find(Keys(items), "f") == 0;
  }

  // ---------------------------------------------------------------- implementation

  /** A node of the list; the map holds references to these nodes as the source's map holds list iterators. */
  class CacheNode {
    const key: string
    var val: Content
    var mtime: Stamp
    var fsize: nat

    constructor (x: Item)
      ensures key == x.key && val == x.val && mtime == x.mtime && fsize == x.fsize
    {
      key, val, mtime, fsize := x.key, x.val, x.mtime, x.fsize;
    }
  }

  ghost predicate Listed(list: seq<CacheNode>, m: map<string, CacheNode>, i: nat)
    requires i < |list|
  {
    list[i].key in m && m[list[i].key] == list[i]
  }

  ghost predicate Located(list: seq<CacheNode>, m: map<string, CacheNode>, k: string)
    requires k in m
  {
    exists i: nat | i < |list| :: list[i] == m[k] && list[i].key == k
  }

  /** List and map hold the same nodes under the same, distinct keys. */
  ghost predicate Index(list: seq<CacheNode>, m: map<string, CacheNode>) {
    && (forall i: nat, j: nat | i < j < |list| :: Differ(list, i, j))
    && (forall i: nat | i < |list| :: Listed(list, m, i))
    && (forall k {:trigger Located(list, m, k)} | k in m :: Located(list, m, k))
  }

  ghost function Items(list: seq<CacheNode>): seq<Item>
    reads list
  {
    seq(|list|, i requires 0 <= i < |list| reads list => Item(list[i].key, list[i].val, list[i].mtime, list[i].fsize))
  }

  /** Where the node is in the list. */
  function Position(list: seq<CacheNode>, x: CacheNode): (i: nat)
    requires x in list
    ensures i < |list| && list[i] == x
  {
    if list[0] == x then 0 else 1 + Position(list[1..], x)
  }

  lemma IndexToFront(list: seq<CacheNode>, m: map<string, CacheNode>, i: nat)
    requires Index(list, m) && i < |list|
    ensures Index(ToFront(list, i), m)
  {
    var l' := ToFront(list, i);
    forall a: nat, b: nat | a < b < |l'| ensures Differ(l', a, b) {
      var x, y := if a == 0 then i else if a <= i then a - 1 else a, if b <= i then b - 1 else b;
      assert l'[a] == list[x] && l'[b] == list[y];
      assert if x < y then Differ(list, x, y) else Differ(list, y, x);
    }
    forall a: nat | a < |l'| ensures Listed(l', m, a) {
      var x := if a == 0 then i else if a <= i then a - 1 else a;
      assert l'[a] == list[x] && Listed(list, m, x);
    }
    forall k | k in m ensures Located(l', m, k) {
      assert Located(list, m, k);
      var x: nat :| x < |list| && list[x] == m[k] && list[x].key == k;
      assert l'[if x == i then 0 else if x < i then x + 1 else x] == m[k];
    }
  }

  lemma IndexDropLast(list: seq<CacheNode>, m: map<string, CacheNode>)
    requires Index(list, m) && |list| > 0
    ensures Index(list[..|list| - 1], m - {list[|list| - 1].key})
  {
    var n := |list| - 1;
    var l', m' := list[..n], m - {list[n].key};
    assert Listed(list, m, n);
    forall a: nat, b: nat | a < b < n ensures Differ(l', a, b) {
      assert Differ(list, a, b);
    }
    forall a: nat | a < n ensures Listed(l', m', a) {
      assert Listed(list, m, a) && Differ(list, a, n);
    }
    forall k | k in m' ensures Located(l', m', k) {
      assert Located(list, m, k);
      var x: nat :| x < |list| && list[x] == m[k] && list[x].key == k;
      assert l'[x] == m'[k];
    }
  }

  lemma IndexPush(list: seq<CacheNode>, m: map<string, CacheNode>, x: CacheNode)
    requires Index(list, m) && x !in list && x.key !in m
    ensures Index([x] + list, m[x.key := x])
  {
    var l', m' := [x] + list, m[x.key := x];
    forall a: nat, b: nat | a < b < |l'| ensures Differ(l', a, b) {
      assert a > 0 ==> Differ(list, a - 1, b - 1);
    }
    forall a: nat | a < |l'| ensures Listed(l', m', a) {
      assert a > 0 ==> Listed(list, m, a - 1);
    }
    forall k | k in m' ensures Located(l', m', k) {
      if k == x.key {
        assert l'[0] == x;
      } else {
        assert Located(list, m, k);
        var a: nat :| a < |list| && list[a] == m[k] && list[a].key == k;
        assert l'[a + 1] == m[k];
      }
    }
  }

  class LruCache {
    var cacheList: seq<CacheNode>
    var cacheMap: map<string, CacheNode>
    const capacity: nat

    ghost predicate Valid()
      reads this, cacheList
    {
      Index(cacheList, cacheMap) && |cacheList| <= capacity
    }

    ghost function View(): seq<Item>
      reads this, cacheList
    {
      Items(cacheList)
    }

    constructor (cap: nat)
      ensures Valid() && View() == [] && capacity == cap && cacheList == []
    {
      capacity, cacheList, cacheMap := cap, [], map[];
    }

    /** The map finds the node that a search of the list would find. */
    lemma FindNode(k: string) returns (i: nat)
      requires Index(cacheList, cacheMap)
      ensures i == Find(Keys(View()), k) <= |cacheList|
      ensures k in cacheMap <==> i < |cacheList|
      ensures k in cacheMap ==> cacheList[i] == cacheMap[k] && cacheList[i].key == k
    {
      i := Find(Keys(View()), k);
      if k in cacheMap {
        assert Located(cacheList, cacheMap, k);
        var j: nat :| j < |cacheList| && cacheList[j] == cacheMap[k] && cacheList[j].key == k;
        assert View()[j].key == k;
      }
      if i < |cacheList| {
        assert Listed(cacheList, cacheMap, i);
      }
    }

    /** Moves the node of key k to the front. */
    method Splice(k: string, ghost i: nat)
      requires Valid() && k in cacheMap && i < |cacheList| && cacheList[i] == cacheMap[k]
      modifies `cacheList
      ensures Valid() && cacheList == ToFront(old(cacheList), i) && View() == ToFront(old(View()), i)
    {
      var p := Position(cacheList, cacheMap[k]);
      assert p < i ==> Differ(cacheList, p, i);
      assert i < p ==> Differ(cacheList, i, p);
      IndexToFront(cacheList, cacheMap, i);
      cacheList := ToFront(cacheList, p);
    }

    /** Overwrites the first node. */
    method Refresh(node: CacheNode, x: Item)
      requires Valid() && |cacheList| > 0 && cacheList[0] == node && node.key == x.key
      modifies node
      ensures Valid() && View() == old(View())[0 := x]
    {
      node.val, node.mtime, node.fsize := x.val, x.mtime, x.fsize;
      forall j: nat | 0 < j < |cacheList| ensures View()[j] == old(View()[j]) {
        assert Differ(cacheList, 0, j);
      }
    }

    method GetValue(k: string, fs: Files) returns (r: Option<Content>)
      requires Valid()
      modifies `cacheList, cacheList
      ensures Valid() && View() == AfterGet(old(View()), fs, k)
      ensures r == Answer(old(View()), fs, k)
      ensures forall n | n in cacheList :: n in old(cacheList)
    {
      ghost var i := FindNode(k);
      if k !in cacheMap {
        return None;
      }
      Splice(k, i);
      var node := cacheMap[k];
      assert node == cacheList[0] && node.mtime == View()[0].mtime;
      if !Exists(fs, k) {
        return None;
      }
      if Expired(node.mtime, fs[k].stamp) {
        Refresh(node, Load(fs, k));
      }
      r := Some(node.val);
      assert View()[0].val == node.val;
    }

    /** The source asserts that the file exists before it inserts; `ok` is false where that assertion fails. */
    method SetValue(k: string, fs: Files) returns (ok: bool)
      requires Valid() && capacity >= 1
      modifies `cacheList, `cacheMap
      ensures Valid() && ok == (k in Keys(old(View())) || Exists(fs, k))
      ensures ok ==> View() == AfterSet(old(View()), capacity, fs, k)
      ensures forall n | n in cacheList :: n in old(cacheList) || fresh(n)
    {
      ghost var i := FindNode(k);
      if k in cacheMap {
        return true;
      }
      if capacity == |cacheList| {
        Evict();
      }
      if !Exists(fs, k) {
        return false;
      }
      var node := new CacheNode(Load(fs, k));
      IndexPush(cacheList, cacheMap, node);
      cacheList := [node] + cacheList;
      cacheMap := cacheMap[k := node];
      ok := true;
    }

    method Evict()
      requires Valid() && |cacheList| > 0
      modifies `cacheList, `cacheMap
      ensures Valid() && cacheList == old(cacheList)[..|old(cacheList)| - 1]
      ensures View() == old(View())[..|old(View())| - 1]
      ensures cacheMap.Keys <= old(cacheMap.Keys)
    {
      IndexDropLast(cacheList, cacheMap);
      var last := cacheList[|cacheList| - 1];
      cacheMap := cacheMap - {last.key};
      cacheList := cacheList[..|cacheList| - 1];
    }

    method GetSize(k: string) returns (n: nat)
      requires Valid()
      ensures n == Size(View(), k)
    {
      ghost var i := FindNode(k);
      if k !in cacheMap {
        return 0;
      }
      n := cacheMap[k].fsize;
      assert View()[i].fsize == n;
    }
  }
}
