/** Longest common subsequence: the plain recursion, the memoised one, and what their result means. */
module Lcs {

  function Max(a: int, b: int): int {
    if a > b then a else b
  }

  /** The plain recursion, on the first m characters of s1 and the first n of s2. */
  function Length(s1: string, m: nat, s2: string, n: nat): nat
    requires m <= |s1| && n <= |s2|
  {
    if m == 0 || n == 0 then 0
    else if s1[m - 1] == s2[n - 1] then 1 + Length(s1, m - 1, s2, n - 1)
    else Max(Length(s1, m, s2, n - 1), Length(s1, m - 1, s2, n))
  }

  // ---------------------------------------------------------------- optimality

  /** idx picks the characters of t out of the first m characters of s, in order. */
  ghost predicate Embeds(idx: seq<nat>, t: string, s: string, m: nat) {
    && |idx| == |t|
    && m <= |s|
    && (forall i | 0 <= i < |idx| :: idx[i] < m && s[idx[i]] == t[i])
    && (forall i, j | 0 <= i < j < |idx| :: idx[i] < idx[j])
  }

  /** t is a subsequence of the first m characters of s. */
  ghost predicate Subsequence(t: string, s: string, m: nat) {
    exists idx :: Embeds(idx, t, s, m)
  }

  ghost predicate Common(t: string, s1: string, m: nat, s2: string, n: nat) {
    Subsequence(t, s1, m) && Subsequence(t, s2, n)
  }

  lemma EmptySubsequence(s: string, m: nat)
    requires m <= |s|
    ensures Subsequence("", s, m)
  {
    assert Embeds([], "", s, m);
  }

  lemma {:induction false} IndexAtLeast(idx: seq<nat>, t: string, s: string, m: nat, i: nat)
    requires Embeds(idx, t, s, m) && i < |idx|
    ensures idx[i] >= i
  {
    if i == 0 {
    } else {
      IndexAtLeast(idx, t, s, m, i - 1);
    }
  }

  lemma SubsequenceLength(t: string, s: string, m: nat)
    requires Subsequence(t, s, m)
    ensures |t| <= m
  {
    var idx :| Embeds(idx, t, s, m);
    if t != "" {
      IndexAtLeast(idx, t, s, m, |t| - 1);
    }
  }

  /** Extending by the next character. */
  lemma SubsequenceExtend(t: string, s: string, m: nat)
    requires m < |s| && Subsequence(t, s, m)
    ensures Subsequence(t, s, m + 1) && Subsequence(t + [s[m]], s, m + 1)
  {
    var idx :| Embeds(idx, t, s, m);
    assert Embeds(idx, t, s, m + 1);
    assert Embeds(idx + [m], t + [s[m]], s, m + 1);
  }

  /** A subsequence either ends with the last character or does without it. */
  lemma SubsequenceSplit(t: string, s: string, m: nat)
    requires 0 < m <= |s| && Subsequence(t, s, m)
    ensures t != "" ==> Subsequence(t[..|t| - 1], s, m - 1)
    ensures (t != "" && t[|t| - 1] == s[m - 1]) || Subsequence(t, s, m - 1)
  {
    var idx :| Embeds(idx, t, s, m);
    if t == "" {
      EmptySubsequence(s, m - 1);
    } else {
      var l := |t| - 1;
      assert forall i | 0 <= i < l :: idx[i] < idx[l];
      assert Embeds(idx[..l], t[..l], s, m - 1);
      if idx[l] < m - 1 {
        assert Embeds(idx, t, s, m - 1);
      }
    }
  }

  /** The result is attained by a common subsequence. */
  lemma {:induction false} Attained(s1: string, m: nat, s2: string, n: nat) returns (t: string)
    requires m <= |s1| && n <= |s2|
    ensures |t| == Length(s1, m, s2, n) && Common(t, s1, m, s2, n)
  {
    if m == 0 || n == 0 {
      t := "";
      EmptySubsequence(s1, m);
      EmptySubsequence(s2, n);
    } else if s1[m - 1] == s2[n - 1] {
      t := Attained(s1, m - 1, s2, n - 1);
      SubsequenceExtend(t, s1, m - 1);
      SubsequenceExtend(t, s2, n - 1);
      t := t + [s1[m - 1]];
    } else if Length(s1, m, s2, n - 1) > Length(s1, m - 1, s2, n) {
      t := Attained(s1, m, s2, n - 1);
      SubsequenceExtend(t, s2, n - 1);
    } else {
      t := Attained(s1, m - 1, s2, n);
      SubsequenceExtend(t, s1, m - 1);
    }
  }

  /** No common subsequence is longer. */
  lemma {:induction false} Optimal(s1: string, m: nat, s2: string, n: nat, t: string)
    requires m <= |s1| && n <= |s2| && Common(t, s1, m, s2, n)
    ensures |t| <= Length(s1, m, s2, n)
  {
    if m == 0 || n == 0 {
      SubsequenceLength(t, s1, m);
      SubsequenceLength(t, s2, n);
    } else {
      SubsequenceSplit(t, s1, m);
      SubsequenceSplit(t, s2, n);
      if s1[m - 1] == s2[n - 1] {
        if t != "" {
          Optimal(s1, m - 1, s2, n - 1, t[..|t| - 1]);
        }
      } else if Subsequence(t, s2, n - 1) {
        Optimal(s1, m, s2, n - 1, t);
      } else {
        Optimal(s1, m - 1, s2, n, t);
      }
    }
  }

  // ---------------------------------------------------------------- the memo table

  /** Every cell is -1 or holds the true value. */
  ghost predicate Memo(s1: string, s2: string, index: array2<int>)
    reads index
  {
    && index.Length0 <= |s1| && index.Length1 <= |s2|
    && forall i: nat, j: nat | i < index.Length0 && j < index.Length1 ::
         index[i, j] == -1 || index[i, j] == Length(s1, i + 1, s2, j + 1)
  }

  /** No character of the one prefix occurs in the other. */
  ghost predicate NoCommon(s1: string, m: nat, s2: string, n: nat)
    requires m <= |s1| && n <= |s2|
  {
    forall i: nat, j: nat | i < m && j < n :: s1[i] != s2[j]
  }

  lemma {:induction false} NoCommonLength(s1: string, m: nat, s2: string, n: nat)
    requires m <= |s1| && n <= |s2| && NoCommon(s1, m, s2, n)
    ensures Length(s1, m, s2, n) == 0
    decreases m + n
  {
    if m == 0 || n == 0 {
    } else {
      NoCommonLength(s1, m, s2, n - 1);
      NoCommonLength(s1, m - 1, s2, n);
    }
  }

  /** The calls made by the recursion when nothing is remembered. */
  function PlainCalls(m: nat, n: nat): nat {
    if m == 0 || n == 0 then 1 else 1 + PlainCalls(m, n - 1) + PlainCalls(m - 1, n)
  }

  function Pow2(k: nat): nat {
    if k == 0 then 1 else 2 * Pow2(k - 1)
  }

  lemma {:induction false} PlainCallsPositive(m: nat, n: nat)
    ensures PlainCalls(m, n) >= 1
    decreases m + n
  {
    if m == 0 || n == 0 {
    } else {
      PlainCallsPositive(m, n - 1);
      PlainCallsPositive(m - 1, n);
    }
  }

  /** There are exponentially many of them. */
  lemma {:induction false} PlainCallsExponential(m: nat, n: nat)
    ensures PlainCalls(m, n) >= Pow2(if m < n then m else n)
    decreases m + n
  {
    if m == 0 || n == 0 {
    } else {
      PlainCallsExponential(m - 1, n - 1);
      PlainCallsDouble(m, n);
    }
  }

  /** A step along both strings at least doubles the calls. */
  lemma PlainCallsDouble(m: nat, n: nat)
    requires m >= 1 && n >= 1
    ensures PlainCalls(m, n) >= 2 * PlainCalls(m - 1, n - 1)
  {
    PlainCallsGrow(m, n - 1);
    PlainCallsGrow(m - 1, n);
  }

  lemma PlainCallsGrow(m: nat, n: nat)
    ensures m >= 1 ==> PlainCalls(m, n) >= PlainCalls(m - 1, n)
    ensures n >= 1 ==> PlainCalls(m, n) >= PlainCalls(m, n - 1)
  {
    PlainCallsPositive(m, n);
    if m >= 1 && n >= 1 {
      PlainCallsPositive(m - 1, n);
      PlainCallsPositive(m, n - 1);
    }
  }

  /**
   * The memoised recursion. A cell is filled with the true value, but one that holds 0 is computed again whenever
   * it is asked for; for strings without a common character that is every cell, and nothing is saved.
   */
  method ChildRecursion(s1: string, m: nat, s2: string, n: nat, index: array2<int>) returns (r: int, ghost calls: nat)
    requires Memo(s1, s2, index) && m <= index.Length0 && n <= index.Length1
    modifies index
    ensures Memo(s1, s2, index) && r == Length(s1, m, s2, n)
    ensures m > 0 && n > 0 ==> index[m - 1, n - 1] == r
    ensures calls >= 1
    ensures calls == 1 <==> m == 0 || n == 0 || (old(index[m - 1, n - 1]) != -1 && Length(s1, m, s2, n) > 0)
    ensures NoCommon(s1, m, s2, n) ==> calls == PlainCalls(m, n)
    decreases m + n
  {
    calls := 1;
    if m == 0 || n == 0 {
      return 0, calls;
    }
    if NoCommon(s1, m, s2, n) {
      NoCommonLength(s1, m, s2, n);
    }
    if index[m - 1, n - 1] > 0 {
      return index[m - 1, n - 1], calls;
    }
    ghost var more: nat;
    if s1[m - 1] == s2[n - 1] {
      var sub;
      sub, more := ChildRecursion(s1, m - 1, s2, n - 1, index);
      calls := calls + more;
      index[m - 1, n - 1] := 1 + sub;
    } else {
      var left, up;
      left, more := ChildRecursion(s1, m, s2, n - 1, index);
      calls := calls + more;
      up, more := ChildRecursion(s1, m - 1, s2, n, index);
      calls := calls + more;
      index[m - 1, n - 1] := Max(left, up);
    }
    r := index[m - 1, n - 1];
  }

  /** The memoised computation returns what the plain recursion returns: the length of a longest common
      subsequence. Strings without a common character take exponentially many calls. */
  method Memoised(s1: string, m: nat, s2: string, n: nat) returns (r: int, ghost calls: nat)
    requires m <= |s1| && n <= |s2|
    ensures r == Length(s1, m, s2, n)
    ensures exists t :: Common(t, s1, m, s2, n) && |t| == r
    ensures forall t | Common(t, s1, m, s2, n) :: |t| <= r
    ensures NoCommon(s1, m, s2, n) ==> calls >= Pow2(if m < n then m else n)
  {
    var index := new int[m, n]((i, j) => -1);
    r, calls := ChildRecursion(s1, m, s2, n, index);
    PlainCallsExponential(m, n);
    ghost var t := Attained(s1, m, s2, n);
    forall t | Common(t, s1, m, s2, n) ensures |t| <= r {
      Optimal(s1, m, s2, n, t);
    }
  }
}
