/** What "least recently used" means, stated on the log of key touches and independently of any cache. */
module Recency {

  /** A capacity of at least one. */
  type Capacity = c: nat | c >= 1 witness 1

  /** The position of the last touch of k, or -1 if k was never touched. */
  function Last<K(==)>(log: seq<K>, k: K): (t: int)
    ensures -1 <= t < |log|
  {
    if log == [] then -1
    else if log[|log| - 1] == k then |log| - 1
    else Last(log[..|log| - 1], k)
  }

  lemma {:induction false} LastMeaning<K>(log: seq<K>, k: K)
    ensures var t := Last(log, k);
            && (t >= 0 <==> k in log)
            && (t >= 0 ==> log[t] == k)
            && (forall j | t < j < |log| :: log[j] != k)
  {
    if log == [] || log[|log| - 1] == k {
    } else {
      LastMeaning(log[..|log| - 1], k);
    }
  }

  /** If k was touched and is missing from keys, there are `cap` keys and each was touched later. */
  ghost predicate LeftOutRightly<K>(keys: seq<K>, log: seq<K>, cap: int, k: K) {
    k in log && k !in keys ==> |keys| == cap && forall i | 0 <= i < |keys| :: Last(log, k) < Last(log, keys[i])
  }

  /** keys are touched keys with the latest touches, latest first. */
  ghost predicate MostRecent<K(!new)>(keys: seq<K>, log: seq<K>, cap: int) {
    && |keys| <= cap
    && (forall i | 0 <= i < |keys| :: keys[i] in log)
    && (forall i, j | 0 <= i < j < |keys| :: Last(log, keys[j]) < Last(log, keys[i]))
    && (forall k :: LeftOutRightly(keys, log, cap, k))
  }

  /** The first position of key k, or |keys| if there is none. */
  function Find<K(==)>(keys: seq<K>, k: K): (i: nat)
    ensures i <= |keys| && (i < |keys| ==> keys[i] == k)
    ensures forall j | 0 <= j < i :: keys[j] != k
  {
    if keys == [] || keys[0] == k then 0 else 1 + Find(keys[1..], k)
  }

  /** The key at position i moved to the front. */
  function ToFront<K>(keys: seq<K>, i: nat): seq<K>
    requires i < |keys|
  {
    [keys[i]] + keys[..i] + keys[i + 1..]
  }

  lemma LastAppend<K>(log: seq<K>, k: K, x: K)
    ensures Last(log + [k], x) == if x == k then |log| else Last(log, x)
  {
    assert (log + [k])[..|log|] == log;
  }

  lemma MostRecentDistinct<K(!new)>(keys: seq<K>, log: seq<K>, cap: int)
    requires MostRecent(keys, log, cap)
    ensures forall i, j | 0 <= i < j < |keys| :: keys[i] != keys[j]
  {}

  lemma ToFrontAt<K(!new)>(keys: seq<K>, i: nat)
    requires i < |keys|
    ensures var keys' := ToFront(keys, i);
            && |keys'| == |keys| && keys'[0] == keys[i]
            && (forall j | 0 < j < |keys| :: keys'[j] == keys[if j <= i then j - 1 else j])
            && (forall x :: x in keys' <==> x in keys)
  {
    assert keys == keys[..i] + [keys[i]] + keys[i + 1..];
  }

  /** Touching a key that is present: moving it to the front keeps the order. */
  lemma TouchKeeps<K(!new)>(keys: seq<K>, log: seq<K>, cap: int, i: nat)
    requires MostRecent(keys, log, cap) && i < |keys|
    ensures MostRecent(ToFront(keys, i), log + [keys[i]], cap)
  {
    MostRecentDistinct(keys, log, cap);
    ToFrontAt(keys, i);
    TouchOrder(keys, ToFront(keys, i), log, cap, i);
  }

  lemma TouchOrder<K(!new)>(keys: seq<K>, keys': seq<K>, log: seq<K>, cap: int, i: nat)
    requires MostRecent(keys, log, cap) && i < |keys| == |keys'| && keys'[0] == keys[i]
    requires forall j | 0 < j < |keys| :: keys'[j] == keys[if j <= i then j - 1 else j]
    requires forall x :: x in keys' <==> x in keys
    ensures MostRecent(keys', log + [keys[i]], cap)
  {
    var k := keys[i];
    forall j, l | 0 <= j < l < |keys'| ensures Last(log + [k], keys'[l]) < Last(log + [k], keys'[j]) {
      LastAppend(log, k, keys'[j]);
      LastAppend(log, k, keys'[l]);
    }
    forall x ensures LeftOutRightly(keys', log + [k], cap, x) {
      assert LeftOutRightly(keys, log, cap, x);
      forall j | x in log + [k] && x !in keys' && 0 <= j < |keys'|
        ensures Last(log + [k], x) < Last(log + [k], keys'[j])
      {
        LastAppend(log, k, x);
        LastAppend(log, k, keys'[j]);
      }
    }
  }

  /** Touching a new key: the front gets it, and only a full list loses its last key. */
  lemma InsertKeeps<K(!new)>(keys: seq<K>, log: seq<K>, cap: int, k: K)
    requires MostRecent(keys, log, cap) && k !in keys && cap >= 1
    ensures MostRecent([k] + (if |keys| < cap then keys else keys[..|keys| - 1]), log + [k], cap)
  {
    var kept := if |keys| < cap then keys else keys[..|keys| - 1];
    var keys' := [k] + kept;
    forall j, l | 0 <= j < l < |keys'| ensures Last(log + [k], keys'[l]) < Last(log + [k], keys'[j]) {
      LastAppend(log, k, keys'[j]);
      LastAppend(log, k, keys'[l]);
      assert keys'[l] == keys[l - 1];
      assert j > 0 ==> keys'[j] == keys[j - 1];
    }
    forall x ensures LeftOutRightly(keys', log + [k], cap, x) {
      assert LeftOutRightly(keys, log, cap, x);
      forall j | x in log + [k] && x !in keys' && 0 <= j < |keys'|
        ensures |keys'| == cap && Last(log + [k], x) < Last(log + [k], keys'[j])
      {
        LastAppend(log, k, x);
        LastAppend(log, k, keys'[j]);
        assert keys'[0] == k;
        assert j > 0 ==> keys'[j] == keys[j - 1];
        if x in keys {
          var l :| 0 <= l < |keys| && keys[l] == x;
          assert l == |keys| - 1;
        }
      }
    }
  }

  ghost predicate Differ<T>(s: seq<T>, i: nat, j: nat)
    requires i < |s| && j < |s|
  {
    s[i] != s[j]
  }
}
