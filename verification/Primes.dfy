/** isPrime and nextPrime, over unbounded integers: where trial division is exact, why the search for the next
    prime ends, and for which arguments it returns the next prime. */
module Primes {

  ghost predicate Divides(d: nat, n: nat)
    requires d > 0
  {
    n % d == 0
  }

  ghost predicate Prime(n: nat) {
    n >= 2 && forall d: nat | 1 < d < n :: !Divides(d, n)
  }

  // ---------------------------------------------------------------- isPrime

  /** What isPrime answers: 1 counts as prime and 2 does not. */
  ghost predicate Answer(v: nat) {
    v == 1 || (v % 2 != 0 && forall i: nat | 3 <= i && i * i <= v :: !Divides(i, v))
  }

  method IsPrime(v: nat) returns (r: bool)
    ensures r == Answer(v)
  {
    if v == 1 {
      return true;
    }
    if v % 2 == 0 {
      return false;
    }
    var i: nat := 3;
    while i * i <= v
      invariant 3 <= i && forall j: nat | 3 <= j < i :: !Divides(j, v)
      decreases v - i
    {
      if v % i == 0 {
        assert Divides(i, v);
        return false;
      }
      Grows(i, v);
      i := i + 1;
    }
    forall j: nat | 3 <= j && j * j <= v ensures !Divides(j, v) {
      if j >= i {
        SquareMonotone(i, j);
      }
    }
    return true;
  }

  lemma Grows(i: nat, v: nat)
    requires 3 <= i && i * i <= v
    ensures i < v
  {
    assert i * i >= 3 * i;
  }

  lemma SquareMonotone(i: nat, j: nat)
    requires i <= j
    ensures i * i <= j * j
  {
    assert j * j - i * i == (j - i) * (j + i);
  }

  lemma Cofactor(n: nat, q: nat, d: nat)
    requires n == q * d && d < n < d * d
    ensures 1 < q < d
  {
    assert q <= 1 ==> q * d <= d;
    assert q >= d ==> q * d >= d * d;
  }

  /** A composite number has a divisor that is no larger than its square root. */
  lemma SmallDivisor(n: nat, d: nat) returns (e: nat)
    requires 1 < d < n && Divides(d, n)
    ensures 1 < e < n && Divides(e, n) && e * e <= n
  {
    var q := n / d;
    assert n == q * d;
    if d * d <= n {
      e := d;
    } else {
      e := q;
      assert q > 1 && q < d by { Cofactor(n, q, d); }
      assert n % q == 0 by { MultipleMod(d, q); assert d * q == q * d; }
      assert q * q <= q * d;
    }
  }

  /** A quotient and remainder are the ones that % and / give. */
  lemma RemainderUnique(a: nat, d: nat, q: nat, r: nat)
    requires a == q * d + r && r < d
    ensures a % d == r
  {
    var x := a / d - q;
    assert a == (a / d) * d + a % d;
    assert x * d == r - a % d by { assert x * d == (a / d) * d - q * d; }
    assert x >= 1 ==> x * d >= d;
    assert x <= -1 ==> x * d + d <= 0;
  }

  lemma MultipleMod(k: nat, d: nat)
    requires d > 0
    ensures (k * d) % d == 0
  {
    RemainderUnique(k * d, d, k, 0);
  }

  /** The answer is right exactly for the arguments other than 1 and 2. */
  lemma AnswerExact(v: nat)
    ensures Answer(v) == Prime(v) <==> v != 1 && v != 2
  {
    if v >= 3 {
      if Answer(v) && !Prime(v) {
        var d: nat :| 1 < d < v && Divides(d, v);
        var e := SmallDivisor(v, d);
      }
      if Prime(v) {
        assert !Divides(2, v);
        forall i: nat | 3 <= i && i * i <= v ensures !Divides(i, v) {
          Grows(i, v);
        }
      }
    }
  }

  // ---------------------------------------------------------------- there is always another prime

  function Factorial(n: nat): nat {
    if n == 0 then 1 else n * Factorial(n - 1)
  }

  lemma {:induction false} FactorialMultiple(n: nat, d: nat)
    requires 1 <= d <= n
    ensures Factorial(n) >= 1 && Divides(d, Factorial(n))
  {
    if n == 1 {
    } else if d == n {
      FactorialMultiple(n - 1, 1);
      MultipleMod(Factorial(n - 1), n);
      assert Factorial(n - 1) * n == n * Factorial(n - 1);
    } else {
      FactorialMultiple(n - 1, d);
      var q := Factorial(n - 1) / d;
      assert Factorial(n - 1) == q * d;
      assert n * (q * d) == (n * q) * d;
      MultipleMod(n * q, d);
    }
  }

  lemma {:induction false} PrimeFactor(n: nat) returns (p: nat)
    requires n >= 2
    ensures Prime(p) && p <= n && Divides(p, n)
    decreases n
  {
    if Prime(n) {
      p := n;
    } else {
      var d: nat :| 1 < d < n && Divides(d, n);
      p := PrimeFactor(d);
      var a, b := d / p, n / d;
      assert d == a * p && n == b * d;
      assert n == (b * a) * p by { assert b * (a * p) == (b * a) * p; }
      MultipleMod(b * a, p);
    }
  }

  /** Euclid: above every number there is a prime. */
  lemma PrimeAbove(n: nat) returns (p: nat)
    ensures Prime(p) && p > n
  {
    FactorialMultiple(n + 1, 1);
    var m := Factorial(n + 1) + 1;
    p := PrimeFactor(m);
    if p <= n {
      FactorialMultiple(n + 1, p);
      var q := Factorial(n + 1) / p;
      assert m == q * p + 1;
      RemainderUnique(m, p, q, 1);
    }
  }

  // ---------------------------------------------------------------- nextPrime

  /** p is the least prime above n. */
  ghost predicate IsNextPrime(n: nat, p: nat) {
    p > n && Prime(p) && forall q: nat | n < q < p :: !Prime(q)
  }

  /** The search ends, and it returns the least prime above n if and only if n is at least 2: from 0 it stops at 1
      and from 1 it passes over 2. */
  method NextPrime(n: nat) returns (i: nat)
    ensures i > n
    ensures IsNextPrime(n, i) <==> n >= 2
  {
    ghost var bound := PrimeAbove(n + 2);
    i := n + 1;
    var found := IsPrime(i);
    while !found
      invariant n < i <= bound && found == Answer(i)
      invariant forall q: nat | n < q < i :: !Answer(q)
      decreases bound - i, !found
    {
      AnswerExact(bound);
      i := i + 1;
      found := IsPrime(i);
    }
    AnswerExact(i);
    forall q: nat | n < q < i && n >= 2 ensures !Prime(q) {
      AnswerExact(q);
    }
    assert n == 1 ==> i != 2 && Prime(2);
  }
}
