/** The LRU cache built from raw nodes: a doubly linked list between two sentinels plus a map from keys to nodes. */
module LinkedLru {
  import opened Options
  import opened Recency

  // ---------------------------------------------------------------- specification

  /** An entry of the cache; the cache is a sequence of entries, most recently used first. */
  datatype Entry = Entry(key: int, value: int)

  datatype Op = Get(k: int) | Put(k: int, v: int)

  function Keys(s: seq<Entry>): (ks: seq<int>)
    ensures |ks| == |s| && forall i | 0 <= i < |s| :: ks[i] == s[i].key
  {
    seq(|s|, i requires 0 <= i < |s| => s[i].key)
  }

  function Touched(s: seq<Entry>, k: int): seq<Entry> {
    var i := Find(Keys(s), k);
    if i < |s| then ToFront(s, i) else s
  }

  /** What one operation does to a cache of the given capacity. */
  function Apply(s: seq<Entry>, cap: int, op: Op): seq<Entry>
    requires cap >= 1
  {
    match op
    case Get(k) => Touched(s, k)
    case Put(k, v) =>
      var i := Find(Keys(s), k);
      if i < |s| then ToFront(s[i := Entry(k, v)], i)
      else if |s| < cap then [Entry(k, v)] + s
      else [Entry(k, v)] + s[..|s| - 1]
  }

  /** What a get returns. */
  function Answer(s: seq<Entry>, k: int): int {
    var i := Find(Keys(s), k);
    if i < |s| then s[i].value else -1
  }

  /** The cache after ops; with a capacity below 1 there is nothing to put and it stays empty. */
  function After(cap: int, ops: seq<Op>): seq<Entry> {
    if ops == [] || cap < 1 then [] else Apply(After(cap, ops[..|ops| - 1]), cap, ops[|ops| - 1])
  }

  /** The key used by op: a put uses its key; a get does so only when it hits. */
  function Use(s: seq<Entry>, op: Op): seq<int> {
    if op.Put? || Find(Keys(s), op.k) < |s| then [op.k] else []
  }

  /** The keys used by ops, in order. */
  function Uses(cap: int, ops: seq<Op>): seq<int>
    requires cap >= 1
  {
    if ops == [] then [] else
      var before := ops[..|ops| - 1];
      var op := ops[|ops| - 1];
      Uses(cap, before) + Use(After(cap, before), op)
  }

  /** The value of the last put of k. */
  function LastPut(ops: seq<Op>, k: int): Option<int> {
    if ops == [] then None
    else match ops[|ops| - 1]
      case Put(x, v) => if x == k then Some(v) else LastPut(ops[..|ops| - 1], k)
      case Get(_) => LastPut(ops[..|ops| - 1], k)
  }

  lemma AfterSnoc(cap: int, ops: seq<Op>, op: Op)
    requires cap >= 1
    ensures After(cap, ops + [op]) == Apply(After(cap, ops), cap, op)
  {
    assert (ops + [op])[..|ops|] == ops;
  }

  lemma AfterGet(cap: int, ops: seq<Op>, k: int)
    ensures After(cap, ops + [Get(k)]) == Touched(After(cap, ops), k)
  {
    if cap >= 1 {
      AfterSnoc(cap, ops, Get(k));
    }
  }

  lemma KeysToFront(s: seq<Entry>, i: nat)
    requires i < |s|
    ensures Keys(ToFront(s, i)) == ToFront(Keys(s), i)
  {}

  /** After any sequence of operations the cache holds exactly the `cap` most recently used keys, in order of
      use, each with the value last put under it. */
  lemma {:induction false} AfterIsLru(cap: int, ops: seq<Op>)
    requires cap >= 1
    ensures MostRecent(Keys(After(cap, ops)), Uses(cap, ops), cap)
    ensures forall e | e in After(cap, ops) :: LastPut(ops, e.key) == Some(e.value)
  {
    if ops == [] {
    } else {
      var before := ops[..|ops| - 1];
      var op := ops[|ops| - 1];
      AfterIsLru(cap, before);
      ApplyIsLru(After(cap, before), Uses(cap, before), cap, op);
      var s := After(cap, before);
      forall e | e in After(cap, ops) ensures LastPut(ops, e.key) == Some(e.value) {
        KeysDistinct(s, Uses(cap, before), cap);
        ApplyValues(s, cap, op, e);
      }
    }
  }

  lemma ApplyIsLru(s: seq<Entry>, log: seq<int>, cap: int, op: Op)
    requires cap >= 1 && MostRecent(Keys(s), log, cap)
    ensures MostRecent(Keys(Apply(s, cap, op)), log + Use(s, op), cap)
  {
    if Use(s, op) == [] {
      assert Apply(s, cap, op) == s && log + [] == log;
    } else if Find(Keys(s), op.k) < |s| {
      HitKeys(s, cap, op);
      TouchKeeps(Keys(s), log, cap, Find(Keys(s), op.k));
    } else {
      MissKeys(s, cap, op);
      FindMiss(s, op.k);
      InsertKeeps(Keys(s), log, cap, op.k);
    }
  }

  lemma FindMiss(s: seq<Entry>, k: int)
    requires Find(Keys(s), k) == |s|
    ensures k !in Keys(s)
  {}

  lemma HitKeys(s: seq<Entry>, cap: int, op: Op)
    requires cap >= 1 && Find(Keys(s), op.k) < |s|
    ensures Keys(Apply(s, cap, op)) == ToFront(Keys(s), Find(Keys(s), op.k))
  {
    var i := Find(Keys(s), op.k);
    var s' := if op.Get? then s else s[i := Entry(op.k, op.v)];
    assert Keys(s') == Keys(s);
    KeysToFront(s', i);
  }

  lemma KeysCons(e: Entry, s: seq<Entry>)
    ensures Keys([e] + s) == [e.key] + Keys(s)
  {}

  lemma KeysTake(s: seq<Entry>, n: nat)
    requires n <= |s|
    ensures Keys(s[..n]) == Keys(s)[..n]
  {}

  lemma MissKeys(s: seq<Entry>, cap: int, op: Op)
    requires cap >= 1 && op.Put? && Find(Keys(s), op.k) == |s| <= cap
    ensures Keys(Apply(s, cap, op)) == [op.k] + if |s| < cap then Keys(s) else Keys(s)[..|s| - 1]
  {
    var kept := if |s| < cap then s else s[..|s| - 1];
    KeysCons(Entry(op.k, op.v), kept);
    if |s| == cap {
      KeysTake(s, |s| - 1);
    }
  }

  lemma ApplyValues(s: seq<Entry>, cap: int, op: Op, e: Entry)
    requires cap >= 1 && e in Apply(s, cap, op)
    requires forall a, b | 0 <= a < b < |s| :: s[a].key != s[b].key
    ensures op.Put? && e.key == op.k ==> e.value == op.v
    ensures op.Get? || e.key != op.k ==> e in s
  {
    var i := Find(Keys(s), op.k);
    if i < |s| {
      var s' := if op.Get? then s else s[i := Entry(op.k, op.v)];
      assert e in s' by { ToFrontAt(s', i); }
      var j :| 0 <= j < |s'| && s'[j] == e;
      assert j != i ==> s[j] == e;
    } else if op.Put? {
      assert e == Entry(op.k, op.v) || e in s;
      if e in s {
        var j :| 0 <= j < |s| && s[j] == e;
        assert s[j].key != op.k;
      }
    }
  }

  lemma KeysDistinct(s: seq<Entry>, log: seq<int>, cap: int)
    requires MostRecent(Keys(s), log, cap)
    ensures forall a, b | 0 <= a < b < |s| :: s[a].key != s[b].key
  {
    MostRecentDistinct(Keys(s), log, cap);
    forall a, b | 0 <= a < b < |s| ensures s[a].key != s[b].key {
      assert Keys(s)[a] != Keys(s)[b];
    }
  }

  /** What a get answers after any sequence of operations: the value last put, unless the key was never put or
      at least `cap` other keys have been used since it was. */
  lemma AnswerMeaning(cap: int, ops: seq<Op>, k: int)
    requires cap >= 1
    ensures var s := After(cap, ops); var log := Uses(cap, ops);
            if k in Keys(s) then LastPut(ops, k) == Some(Answer(s, k))
            else Answer(s, k) == -1
                 && (k in log ==> |s| == cap && forall e | e in s :: Last(log, k) < Last(log, e.key))
  {
    AfterIsLru(cap, ops);
    AnswerFrom(After(cap, ops), Uses(cap, ops), cap, k);
  }

  lemma AnswerFrom(s: seq<Entry>, log: seq<int>, cap: int, k: int)
    requires MostRecent(Keys(s), log, cap)
    ensures if k in Keys(s) then Entry(k, Answer(s, k)) in s
            else Answer(s, k) == -1
                 && (k in log ==> |s| == cap && forall e | e in s :: Last(log, k) < Last(log, e.key))
  {
    var i := Find(Keys(s), k);
    if k in Keys(s) {
      assert i < |s| && s[i] == Entry(k, Answer(s, k));
    } else {
      assert LeftOutRightly(Keys(s), log, cap, k);
      forall e | e in s && k in log ensures Last(log, k) < Last(log, e.key) {
        var j :| 0 <= j < |s| && s[j] == e;
        assert Keys(s)[j] == e.key;
      }
    }
  }

  // ---------------------------------------------------------------- implementation

  class Node {
    const key: int   // set when the node is made and never changed
    var value: int
    var next: Node?
    var prev: Node?

    constructor (key: int, value: int)
      ensures this.key == key && this.value == value && next == null && prev == null
    {
      this.key, this.value, next, prev := key, value, null, null;
    }
  }

  // The parts of the representation invariant are wrapped in small predicates, so that a proof
  // looks at one position or one key only when it names it.

  ghost predicate LinkedAt(sp: seq<Node>, i: nat)
    requires i + 1 < |sp|
    reads sp
  {
    sp[i].next == sp[i + 1] && sp[i + 1].prev == sp[i]
  }

  /** The nodes of sp, from head to tail, are distinct and next and prev are inverse along it. */
  ghost predicate Chain(sp: seq<Node>)
    reads sp
  {
    && |sp| >= 2
    && (forall i: nat, j: nat | i < j < |sp| :: Differ(sp, i, j))
    && (forall i: nat | i + 1 < |sp| :: LinkedAt(sp, i))
  }

  lemma ChainAt(sp: seq<Node>)
    requires Chain(sp)
    ensures forall i: nat, j: nat | i < j < |sp| :: sp[i] != sp[j]
    ensures forall i: nat | i + 1 < |sp| :: sp[i].next == sp[i + 1]
    ensures forall i: nat | 0 < i < |sp| :: sp[i].prev == sp[i - 1]
  {
    forall i: nat, j: nat | i < j < |sp| ensures sp[i] != sp[j] {
      assert Differ(sp, i, j);
    }
    forall i: nat | i + 1 < |sp| ensures sp[i].next == sp[i + 1] {
      assert LinkedAt(sp, i);
    }
    forall i: nat | 0 < i < |sp| ensures sp[i].prev == sp[i - 1] {
      assert LinkedAt(sp, i - 1);
    }
  }

  ghost predicate Listed(sp: seq<Node>, m: map<int, Node>, i: nat)
    requires i < |sp|
  {
    sp[i].key in m && m[sp[i].key] == sp[i]
  }

  ghost predicate Located(sp: seq<Node>, m: map<int, Node>, k: int)
    requires k in m
  {
    exists i | 0 < i < |sp| - 1 :: sp[i] == m[k] && sp[i].key == k
  }

  /** m maps exactly the keys of the nodes between the sentinels, each to its node. */
  ghost predicate Index(sp: seq<Node>, m: map<int, Node>) {
    && (forall i: nat | 0 < i < |sp| - 1 :: Listed(sp, m, i))
    && (forall k {:trigger Located(sp, m, k)} | k in m :: Located(sp, m, k))
  }

  ghost function EntriesOf(sp: seq<Node>): (s: seq<Entry>)
    requires |sp| >= 2
    reads sp
  {
    seq(|sp| - 2, i requires 0 <= i < |sp| - 2 reads sp => Entry(sp[i + 1].key, sp[i + 1].value))
  }

  /** The node at position i moved to position 1. */
  ghost function Rotated<T>(s: seq<T>, i: nat): (r: seq<T>)
    requires 1 < i < |s|
    ensures |r| == |s|
  {
    [s[0], s[i]] + s[1..i] + s[i + 1..]
  }

  /** Where position j of the rotated sequence comes from. */
  function From(i: nat, j: nat): nat {
    if j == 0 then 0 else if j == 1 then i else if j <= i then j - 1 else j
  }

  lemma RotatedAt<T>(s: seq<T>, i: nat)
    requires 1 < i < |s|
    ensures forall j: nat | j < |s| :: From(i, j) < |s| && Rotated(s, i)[j] == s[From(i, j)]
  {}

  /** next and prev follow sp, except that the node at position i has been spliced in at position 1. */
  ghost predicate Relinked(sp: seq<Node>, i: nat)
    requires 1 < i < |sp| - 1
    reads sp
  {
    && (forall i: nat, j: nat | i < j < |sp| :: Differ(sp, i, j))
    && (forall j: nat | j + 1 < |sp| :: sp[From(i, j)].next == sp[From(i, j + 1)])
    && (forall j: nat | j + 1 < |sp| :: sp[From(i, j + 1)].prev == sp[From(i, j)])
  }

  lemma RotatedChain(sp: seq<Node>, i: nat)
    requires 1 < i < |sp| - 1 && Relinked(sp, i)
    ensures Chain(Rotated(sp, i))
  {
    RotatedAt(sp, i);
    var r := Rotated(sp, i);
    forall j: nat, l: nat | j < l < |r| ensures Differ(r, j, l) {
      var a, b := From(i, j), From(i, l);
      assert if a < b then Differ(sp, a, b) else Differ(sp, b, a);
    }
    forall j: nat | j + 1 < |r| ensures LinkedAt(r, j) {
      assert r[j] == sp[From(i, j)] && r[j + 1] == sp[From(i, j + 1)];
    }
  }

  lemma RotatedIndex(sp: seq<Node>, m: map<int, Node>, i: nat)
    requires 1 < i < |sp| - 1 && Index(sp, m)
    ensures Index(Rotated(sp, i), m)
  {
    RotatedAt(sp, i);
    var r := Rotated(sp, i);
    forall k | k in m ensures Located(r, m, k) {
      assert Located(sp, m, k);
      var j: nat :| 0 < j < |sp| - 1 && sp[j] == m[k] && sp[j].key == k;
      var l: nat := if j == i then 1 else if j < i then j + 1 else j;
      assert From(i, l) == j;
      assert r[l] == m[k];
    }
    forall j: nat | 0 < j < |r| - 1 ensures Listed(r, m, j) {
      assert Listed(sp, m, From(i, j));
    }
  }

  lemma RotatedEntries(sp: seq<Node>, i: nat)
    requires 1 < i < |sp| - 1
    ensures EntriesOf(Rotated(sp, i)) == ToFront(EntriesOf(sp), i - 1)
  {
    RotatedAt(sp, i);
    ToFrontAt(EntriesOf(sp), i - 1);
    var r := Rotated(sp, i);
    forall j: nat | j < |sp| - 2 ensures EntriesOf(r)[j] == ToFront(EntriesOf(sp), i - 1)[j] {
      assert r[j + 1] == sp[From(i, j + 1)];
    }
  }

  /** n put in behind the head sentinel. */
  ghost function WithFront<T>(s: seq<T>, n: T): seq<T>
    requires |s| >= 2
  {
    [s[0], n] + s[1..]
  }

  /** next and prev follow sp, except that n has been linked in behind its first node. */
  ghost predicate Fronted(sp: seq<Node>, n: Node)
    reads sp, n
  {
    && |sp| >= 2 && n !in sp
    && sp[0].next == n && n.prev == sp[0] && n.next == sp[1] && sp[1].prev == n
    && (forall i: nat, j: nat | i < j < |sp| :: Differ(sp, i, j))
    && (forall j: nat | 1 <= j && j + 1 < |sp| :: LinkedAt(sp, j))
  }

  lemma FrontChain(sp: seq<Node>, n: Node)
    requires Fronted(sp, n)
    ensures Chain(WithFront(sp, n))
  {
    var r := WithFront(sp, n);
    forall a: nat, b: nat | a < b < |r| ensures Differ(r, a, b) {
      assert a != 1 && b != 1 ==> Differ(sp, if a == 0 then 0 else a - 1, b - 1);
    }
    forall a: nat | a + 1 < |r| ensures LinkedAt(r, a) {
      assert a >= 2 ==> LinkedAt(sp, a - 1);
    }
  }

  lemma FrontEntries(sp: seq<Node>, n: Node)
    requires |sp| >= 2
    ensures EntriesOf(WithFront(sp, n)) == [Entry(n.key, n.value)] + EntriesOf(sp)
  {}

  /** The last entry, the one before the tail sentinel, taken out. */
  ghost function WithoutLast<T>(s: seq<T>): seq<T>
    requires |s| >= 3
  {
    s[..|s| - 2] + [s[|s| - 1]]
  }

  lemma IndexInsert(sp: seq<Node>, m: map<int, Node>, n: Node)
    requires |sp| >= 2 && Index(sp, m) && n.key !in m
    ensures Index(WithFront(sp, n), m[n.key := n])
  {
    var sp', m' := WithFront(sp, n), m[n.key := n];
    forall i: nat | 0 < i < |sp'| - 1 ensures Listed(sp', m', i) {
      assert i > 1 ==> sp'[i] == sp[i - 1] && Listed(sp, m, i - 1);
    }
    forall k | k in m' ensures Located(sp', m', k) {
      if k == n.key {
        assert sp'[1] == n;
      } else {
        assert Located(sp, m, k);
        var i :| 0 < i < |sp| - 1 && sp[i] == m[k] && sp[i].key == k;
        assert sp'[i + 1] == m[k];
      }
    }
  }

  lemma IndexWithoutLast(sp: seq<Node>, m: map<int, Node>)
    requires |sp| >= 3 && Index(sp, m) && Chain(sp)
    ensures Index(WithoutLast(sp), m - {sp[|sp| - 2].key})
  {
    var sp', m', last := WithoutLast(sp), m - {sp[|sp| - 2].key}, |sp| - 2;
    assert Listed(sp, m, last);
    forall i: nat | 0 < i < |sp'| - 1 ensures Listed(sp', m', i) {
      assert sp'[i] == sp[i] && Listed(sp, m, i) && Differ(sp, i, last);
    }
    forall k | k in m' ensures Located(sp', m', k) {
      assert Located(sp, m, k);
      var i :| 0 < i < |sp| - 1 && sp[i] == m[k] && sp[i].key == k;
      assert sp'[i] == m'[k];
    }
  }

  class LruCache {
    var head: Node
    var tail: Node
    const capacity: int
    var cursize: int
    var m: map<int, Node>
    /** The nodes from head to tail. */
    ghost var spine: seq<Node>
    /** The calls made so far. */
    ghost var ops: seq<Op>

    ghost predicate Shape()
      reads this, spine
    {
      && Chain(spine) && Index(spine, m)
      && spine[0] == head && spine[|spine| - 1] == tail
      && cursize == |spine| - 2
    }

    ghost function Entries(): seq<Entry>
      reads this, spine
      requires |spine| >= 2
    {
      EntriesOf(spine)
    }

    /** The list is well linked, the map indexes exactly its nodes, and the entries are what the specification
        gives for the calls made so far. */
    ghost predicate Valid()
      reads this, spine
    {
      && Shape()
      && (cursize == 0 || cursize <= capacity)
      && Entries() == After(capacity, ops)
    }

    constructor (capacity: int)
      ensures Valid() && fresh(spine) && ops == [] && this.capacity == capacity
    {
      this.capacity := capacity;
      cursize := 0;
      var h := new Node(-1, -1);
      var t := new Node(-1, -1);
      h.next := t;
      t.prev := h;
      head, tail := h, t;
      m := map[];
      spine := [h, t];
      ops := [];
    }

    /** Unlinks inode, which is not the first entry, and links it in behind head: the pointer writes. */
    method Relink(inode: Node, ghost i: nat)
      requires Chain(spine) && spine[0] == head && 1 < i < |spine| - 1 && spine[i] == inode
      modifies spine
      ensures Relinked(spine, i)
      ensures forall n | n in spine :: n.value == old(n.value)
    {
      ChainAt(spine);
      assert spine[0].next == spine[1] && spine[i].prev == spine[i - 1] && spine[i].next == spine[i + 1];
      var temp := head.next;
      var tprev, tnext := inode.prev, inode.next;
      head.next := inode;
      inode.prev := head;
      inode.next := temp;
      temp.prev := inode;
      tprev.next := tnext;
      tnext.prev := tprev;
    }

    /** Makes inode, which is not the first entry, the first one. */
    method Promote(inode: Node, ghost i: nat)
      requires Shape() && 1 < i < |spine| - 1 && spine[i] == inode
      modifies `spine, spine
      ensures Shape() && Entries() == ToFront(old(Entries()), i - 1)
      ensures forall n | n in spine :: n in old(spine)
    {
      ghost var was := spine;
      Relink(inode, i);
      assert EntriesOf(was) == old(Entries());
      RotatedChain(was, i);
      RotatedIndex(was, m, i);
      RotatedEntries(was, i);
      spine := Rotated(was, i);
    }

    method MoveToFront(inode: Node, ghost i: nat)
      requires Shape() && 0 < i < |spine| - 1 && spine[i] == inode
      modifies `spine, spine
      ensures Shape() && Entries() == ToFront(old(Entries()), i - 1)
      ensures forall n | n in spine :: n in old(spine)
    {
      assert LinkedAt(spine, 0);
      assert i > 1 ==> Differ(spine, 1, i);
      if head.next != inode {
        Promote(inode, i);
      } else {
        assert ToFront(Entries(), 0) == Entries();
      }
    }

    /** The map finds the node that a search of the entries would find. */
    lemma FindNode(key: int) returns (i: nat)
      requires Shape()
      ensures i == Find(Keys(Entries()), key) + 1
      ensures key !in m <==> i == |spine| - 1
      ensures key in m ==> 0 < i < |spine| - 1 && spine[i] == m[key] && spine[i].key == key
    {
      i := Find(Keys(Entries()), key) + 1;
      if key in m {
        assert Located(spine, m, key);
        var j :| 0 < j < |spine| - 1 && spine[j] == m[key] && spine[j].key == key;
        assert Entries()[j - 1].key == key;
      }
      if i < |spine| - 1 {
        assert Listed(spine, m, i);
      }
    }

    /** The body of get. */
    method Lookup(key: int) returns (r: int)
      requires Shape()
      modifies `spine, spine
      ensures Shape() && Entries() == Touched(old(Entries()), key)
      ensures r == Answer(old(Entries()), key)
      ensures forall n | n in spine :: n in old(spine)
    {
      ghost var i := FindNode(key);
      if key !in m {
        return -1;
      }
      var inode := m[key];
      r := inode.value;
      MoveToFront(inode, i);
    }

    method Get(key: int) returns (r: int)
      requires Valid()
      modifies `spine, `ops, spine
      ensures Valid() && ops == old(ops) + [Op.Get(key)]
      ensures r == Answer(old(Entries()), key)
      ensures forall n | n in spine :: n in old(spine)
    {
      AfterGet(capacity, ops, key);
      ghost var next := ops + [Op.Get(key)];
      ghost var now := After(capacity, next);
      assert now == Touched(Entries(), key);
      r := Lookup(key);
      ops := next;
    }

    /** Links a new node in behind head: the pointer writes. */
    method WriteFront(n: Node)
      requires Chain(spine) && spine[0] == head && n !in spine
      modifies spine, n
      ensures Fronted(spine, n)
      ensures forall x | x in spine || x == n :: x.value == old(x.value)
    {
      ChainAt(spine);
      assert LinkedAt(spine, 0);
      var temp := head.next;
      head.next := n;
      n.next := temp;
      temp.prev := n;
      n.prev := head;
      forall j: nat | 1 <= j && j + 1 < |spine| ensures LinkedAt(spine, j) {}
    }

    /** Links a new node in behind head. */
    method LinkFront(n: Node)
      requires Chain(spine) && spine[0] == head && n !in spine
      modifies `spine, spine, n
      ensures spine == WithFront(old(spine), n) && Chain(spine)
      ensures Entries() == [Entry(n.key, old(n.value))] + old(Entries())
    {
      ghost var was := spine;
      WriteFront(n);
      assert EntriesOf(was) == old(Entries());
      FrontChain(was, n);
      FrontEntries(was, n);
      spine := WithFront(was, n);
    }

    /** Unlinks the entry before tail. */
    method UnlinkLast() returns (end: Node)
      requires Chain(spine) && spine[|spine| - 1] == tail && |spine| >= 3
      modifies `spine, spine
      ensures end == old(spine)[|old(spine)| - 2]
      ensures spine == WithoutLast(old(spine)) && Chain(spine)
      ensures Entries() == old(Entries())[..|old(Entries())| - 1]
    {
      ghost var was, n := spine, |spine|;
      assert LinkedAt(was, n - 2) && LinkedAt(was, n - 3);
      ChainAt(was);
      end := tail.prev;
      end.prev.next := tail;
      tail.prev := end.prev;
      spine := WithoutLast(was);
      assert forall j: nat | j < |spine| :: spine[j] == if j < n - 2 then was[j] else was[n - 1];
      forall a: nat, b: nat | a < b < |spine| ensures Differ(spine, a, b) {}
      forall a: nat | a + 1 < |spine| ensures LinkedAt(spine, a) {}
    }

    /** put on a key that is present. */
    method Overwrite(inode: Node, value: int, ghost i: nat)
      requires Shape() && 0 < i < |spine| - 1 && spine[i] == inode
      modifies `spine, spine
      ensures Shape() && Entries() == ToFront(old(Entries())[i - 1 := Entry(inode.key, value)], i - 1)
      ensures forall n | n in spine :: n in old(spine)
    {
      ChainAt(spine);
      inode.value := value;
      forall a: nat | a + 1 < |spine| ensures LinkedAt(spine, a) {}
      assert Entries() == old(Entries())[i - 1 := Entry(inode.key, value)];
      MoveToFront(inode, i);
    }

    /** put of a new key with room left. */
    method Insert(n: Node)
      requires Shape() && n !in spine && n.key !in m
      modifies `spine, `m, `cursize, spine, n
      ensures Shape() && Entries() == [Entry(n.key, old(n.value))] + old(Entries())
      ensures forall x | x in spine :: x in old(spine) || x == n
    {
      IndexInsert(spine, m, n);
      LinkFront(n);
      m := m[n.key := n];
      cursize := cursize + 1;
    }

    /** put of a new key into a full cache. */
    method Replace(n: Node)
      requires Shape() && n !in spine && n.key !in m && |spine| >= 3
      modifies `spine, `m, spine, n
      ensures Shape() && Entries() == [Entry(n.key, old(n.value))] + old(Entries())[..|old(Entries())| - 1]
      ensures forall x | x in spine :: x in old(spine) || x == n
    {
      IndexWithoutLast(spine, m);
      var end := UnlinkLast();
      IndexInsert(spine, m - {end.key}, n);
      LinkFront(n);
      m := (m - {end.key})[n.key := n];
    }

    /** The body of put. */
    method Store(key: int, value: int)
      requires Shape() && 1 <= capacity && cursize <= capacity
      modifies `spine, `m, `cursize, spine
      ensures Shape() && cursize <= capacity
      ensures Entries() == Apply(old(Entries()), capacity, Op.Put(key, value))
      ensures forall n | n in spine :: n in old(spine) || fresh(n)
    {
      ghost var i := FindNode(key);
      var n := new Node(key, value);
      if key in m {
        Overwrite(m[key], value, i);
      } else if cursize < capacity {
        Insert(n);
      } else {
        Replace(n);
      }
    }

    /** With a capacity below 1 the full branch would follow a null pointer. */
    method Put(key: int, value: int)
      requires Valid() && capacity >= 1
      modifies this, spine
      ensures Valid() && ops == old(ops) + [Op.Put(key, value)]
      ensures forall n | n in spine :: n in old(spine) || fresh(n)
    {
      AfterSnoc(capacity, ops, Op.Put(key, value));
      ops := ops + [Op.Put(key, value)];
      Store(key, value);
    }
  }
}
