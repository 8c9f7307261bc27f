/** Fibonacci search on a sorted range, with the Fibonacci generator that drives it. */
module FibSearch {

  /** The Fibonacci numbers. */
  function F(k: nat): nat {
    if k < 2 then k else F(k - 1) + F(k - 2)
  }

  lemma {:induction false} FMonotone(j: nat, k: nat)
    requires j <= k
    ensures F(j) <= F(k)
    ensures 2 <= j < k ==> F(j) < F(k)
    ensures k >= 1 ==> F(k) >= 1
    decreases k
  {
    if k == 0 {
    } else {
      FMonotone(if j < k then j else k - 1, k - 1);
      if k >= 2 {
        FMonotone(k - 2, k - 2);
      }
    }
  }

  lemma {:induction false} FGrows(k: nat)
    ensures F(k) + 1 >= k
  {
    if k < 2 {
    } else {
      FGrows(k - 1);
      FMonotone(k - 2, k - 2);
    }
  }

  /** The generator: g is the k-th Fibonacci number and f the one before it (1 before the zeroth). */
  class Fib {
    var f: int
    var g: int
    ghost var k: nat

    ghost predicate Valid()
      reads this
    {
      g == F(k) && f == if k == 0 then 1 else F(k - 1)
    }

    /** Starts at the first Fibonacci number that is at least n. */
    constructor (n: int)
      ensures Valid() && g >= n && (k > 0 ==> F(k - 1) < n)
    {
      f, g, k := 1, 0, 0;
      new;
      while g < n
        invariant Valid() && (k > 0 ==> F(k - 1) < n)
        decreases n + 1 - k
      {
        FGrows(k);
        Next();
      }
    }

    method Next()
      requires Valid()
      modifies this
      ensures Valid() && k == old(k) + 1
    {
      g := g + f;
      f := g - f;
      k := k + 1;
    }

    method Prev()
      requires Valid() && k > 0
      modifies this
      ensures Valid() && k == old(k) - 1
    {
      f := g - f;
      g := g - f;
      k := k - 1;
    }
  }

  predicate Sorted(a: seq<int>) {
    forall i, j | 0 <= i <= j < |a| :: a[i] <= a[j]
  }

  /** Linear search: the first slot holding e, or end. */
  method Find(a: array<int>, e: int, start: nat, end: nat) returns (p: nat)
    requires start <= end <= a.Length
    ensures start <= p <= end && (p < end ==> a[p] == e) && e !in a[start..p]
  {
    p := start;
    while p != end
      invariant start <= p <= end && e !in a[start..p]
    {
      if a[p] == e {
        return;
      }
      p := p + 1;
    }
  }

  /** Smaller range, smaller index: a range shorter than F(k) is searched with a Fibonacci number below F(k). */
  lemma IndexBelow(j: nat, k: nat)
    requires F(j) < F(k)
    ensures j < k
  {
    if k <= j {
      FMonotone(k, j);
    }
  }

  /**
   * Fibonacci search: a slot holding e, or the original end exactly when linear search finds nothing. A range no
   * longer than the k-th Fibonacci number takes at most k probes.
   */
  method Search(a: array<int>, e: int, start: nat, end: nat) returns (p: nat, ghost probes: nat)
    requires start <= end <= a.Length && Sorted(a[start..end])
    ensures start <= p <= end
    ensures p < end ==> a[p] == e
    ensures p == end <==> e !in a[start..end]
    ensures forall k: nat | end - start <= F(k) :: probes <= k
  {
    var lo, hi := start, end;
    var fib := new Fib(hi - lo);
    ghost var s := a[start..end];
    ghost var last := fib.k;
    probes := 0;
    forall k: nat | end - start <= F(k) ensures last <= k {
      if last > 0 {
        IndexBelow(last - 1, k);
      }
    }
    while lo < hi
      invariant start <= lo <= hi <= end
      invariant fresh(fib) && fib.Valid() && (lo < hi ==> fib.g >= 1)
      invariant forall i | 0 <= i < lo - start :: s[i] < e
      invariant forall i | hi - start <= i < |s| :: e < s[i]
      invariant fib.k + probes <= last || (hi - lo < F(fib.k) && fib.k + probes == last + 1)
      invariant hi - lo <= F(fib.k)
      decreases hi - lo
    {
      while hi - lo < fib.g
        invariant fib.Valid() && fib.g >= 1
        invariant fib.k + probes <= last || (hi - lo < F(fib.k) && fib.k + probes == last + 1)
        invariant hi - lo <= F(fib.k) || hi - lo < F(fib.k + 1)
        decreases fib.k
      {
        FMonotone(fib.k - 1, fib.k - 1);
        fib.Prev();
      }
      FMonotone(fib.k - 1, fib.k);
      assert hi - lo < 2 * fib.g;
      var mid := lo + fib.g - 1;
      assert lo <= mid < hi && a[mid] == s[mid - start];
      probes := probes + 1;
      if a[mid] < e {
        lo := mid + 1;
      } else if e < a[mid] {
        hi := mid;
      } else {
        assert s[mid - start] == e;
        return mid, probes;
      }
    }
    p := end;
  }
}
