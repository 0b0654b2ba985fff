/** Which queue pairs of the bandwidth benchmark ever post a signaled work request.

    The measurement loop signals one post in 32 by a counter that all queue pairs share, so post i of
    queue pair q is signaled exactly when (i * qps + q) mod 32 is 31.  This module solves that
    congruence for every number of queue pairs. */
module SignalCoverage {

  const SIGNAL_INTERVAL: nat := 32

  /** The signaling decision of the measurement loop on the shared counter. */
  predicate SignaledAt(signalCnt: nat) {
    signalCnt % SIGNAL_INTERVAL == SIGNAL_INTERVAL - 1
  }

  /** The value of the shared counter when post i of queue pair q is made: q for the first post, and qps
      more for each later one. */
  function Turn(qps: nat, q: nat, i: nat): nat {
    if i == 0 then q else Turn(qps, q, i - 1) + qps
  }

  predicate Signals(qps: nat, q: nat, i: nat) {
    SignaledAt(Turn(qps, q, i))
  }

  /** Queue pair q posts a signaled work request at some point. */
  ghost predicate EverSignals(qps: nat, q: nat) {
    exists i: nat :: Signals(qps, q, i)
  }

  /** Euclid's algorithm. */
  function Gcd(a: nat, b: nat): (g: nat)
    ensures a + b > 0 ==> g > 0
    decreases b
  {
    if b == 0 then a else Gcd(b, a % b)
  }

  /** The number-theoretic condition for that, shown equivalent below. */
  predicate Covered(qps: nat, q: nat)
    requires qps > 0
  {
    (SIGNAL_INTERVAL - 1 - q) % Gcd(qps, SIGNAL_INTERVAL) == 0
  }

  /** How many of the posts lo, ..., lo + n - 1 of queue pair q are signaled. */
  ghost function CountSignals(qps: nat, q: nat, lo: nat, n: nat): nat {
    if n == 0 then 0 else CountSignals(qps, q, lo, n - 1) + if Signals(qps, q, lo + n - 1) then 1 else 0
  }

  lemma {:induction false} TurnIs(qps: nat, q: nat, i: nat)
    ensures Turn(qps, q, i) == i * qps + q
  {
    if i > 0 {
      TurnIs(qps, q, i - 1);
      MulDist(qps, i - 1, 1);
    }
  }

  /** The nested loops visit the values of the shared counter one by one. */
  lemma {:induction false} TurnNext(qps: nat, q: nat, i: nat)
    ensures Turn(qps, q + 1, i) == Turn(qps, q, i) + 1
    ensures Turn(qps, qps, i) == Turn(qps, 0, i + 1)
  {
    if i > 0 {
      TurnNext(qps, q, i - 1);
    }
  }

  // ---------- integer arithmetic ----------

  lemma MulDist(a: int, b: int, c: int)
    ensures a * (b + c) == a * b + a * c
    ensures (b + c) * a == b * a + c * a
  {
  }

  lemma MulSub(a: int, b: int, c: int)
    ensures a * (b - c) == a * b - a * c
    ensures (b - c) * a == b * a - c * a
  {
  }

  lemma MulAssoc(a: int, b: int, c: int)
    ensures a * (b * c) == (a * b) * c
    ensures a * (b * c) == b * (a * c)
  {
  }

  lemma QuotientAtLeastOne(m: int, d: int)
    requires m > 0 && d > 0
    ensures m * d >= m
  {
  }

  /** Quotient and remainder are unique. */
  lemma DivUnique(m: int, k: int, r: int)
    requires 0 <= r < m
    ensures (m * k + r) / m == k && (m * k + r) % m == r
  {
    var x := m * k + r;
    var d := x / m - k;
    assert m * d == r - x % m by {
      MulSub(m, x / m, k);
    }
    if d > 0 {
      QuotientAtLeastOne(m, d);
    } else if d < 0 {
      QuotientAtLeastOne(m, -d);
      MulSub(m, 0, d);
    }
  }

  lemma ModOfMultiple(m: int, k: int, r: int)
    requires m > 0
    ensures (m * k + r) % m == r % m
    ensures (m * k + r) / m == k + r / m
  {
    MulDist(m, k, r / m);
    DivUnique(m, k + r / m, r % m);
  }

  lemma CancelFactor(g: int, a: int, b: int)
    requires g > 0 && g * a == g * b
    ensures a == b
  {
  }

  // ---------- Bezout coefficients ----------

  /** The greatest common divisor divides both numbers and is an integer combination of them. */
  lemma {:induction false} Bezout(a: nat, b: nat) returns (u: nat, v: nat, x: int, y: int)
    requires a + b > 0
    ensures a == Gcd(a, b) * u && b == Gcd(a, b) * v
    ensures x * a + y * b == Gcd(a, b)
    decreases b
  {
    if b == 0 {
      u, v, x, y := 1, 0, 1, 0;
    } else {
      var u', v', x', y' := Bezout(b, a % b);
      u, v, x, y := BezoutStep(a, b, Gcd(b, a % b), u', v', x', y');
    }
  }

  lemma BezoutStep(a: nat, b: nat, g: nat, u: nat, v: nat, x: int, y: int)
    returns (u': nat, v': nat, x': int, y': int)
    requires b > 0 && b == g * u && a % b == g * v && x * b + y * (a % b) == g
    ensures a == g * u' && b == g * v'
    ensures x' * a + y' * b == g
  {
    var k, r := a / b, a % b;
    u', v', x', y' := u * k + v, u, y, x - y * k;
    assert a == g * u' by {
      MulDist(g, u * k, v);
      MulAssoc(g, u, k);
    }
    MulDist(y, b * k, r);
    MulSub(b, x, y * k);
    MulAssoc(y, b, k);
    MulAssoc(b, y, k);
  }

  // ---------- the congruence ----------

  /** A queue pair that ever signals is covered. */
  lemma SignalImpliesCovered(qps: nat, q: nat, i: nat)
    requires qps > 0 && Signals(qps, q, i)
    ensures Covered(qps, q)
  {
    hide Gcd;
    TurnIs(qps, q, i);
    var u, v, _, _ := Bezout(qps, 32);
    var g := Gcd(qps, 32);
    var m := (i * qps + q) / 32;
    assert 31 - q == g * (i * u - v * m) by {
      MulAssoc(i, g, u);
      MulAssoc(g, v, m);
      MulSub(g, i * u, v * m);
    }
    ModOfMultiple(g, i * u - v * m, 0);
  }

  /** A covered queue pair signals within its first 32 posts. */
  lemma CoveredSignals(qps: nat, q: nat) returns (i: nat)
    requires qps > 0 && Covered(qps, q)
    ensures i < 32 && Signals(qps, q, i)
  {
    hide Gcd;
    var _, _, x, y := Bezout(qps, 32);
    var g := Gcd(qps, 32);
    var t := (31 - q) / g;
    var e := (t * x) / 32;
    i := (t * x) % 32;
    assert i * qps + q == 32 * (-(e * qps) - y * t) + 31 by {
      assert 31 - q == g * t;
      assert i * qps == (t * x) * qps - 32 * (e * qps) by {
        MulSub(qps, t * x, 32 * e);
        MulAssoc(32, e, qps);
      }
      assert g * t == (t * x) * qps + 32 * (y * t) by {
        MulDist(t, x * qps, y * 32);
        MulAssoc(t, x, qps);
        MulAssoc(t, y, 32);
      }
    }
    ModOfMultiple(32, -(e * qps) - y * t, 31);
    TurnIs(qps, q, i);
  }

  /** Signal coverage: queue pair q ever posts a signaled work request iff gcd(qps, 32) divides 31 - q. */
  lemma CoverageIff(qps: nat, q: nat)
    requires qps > 0
    ensures Covered(qps, q) <==> EverSignals(qps, q)
  {
    if Covered(qps, q) {
      var i := CoveredSignals(qps, q);
    }
    if i: nat :| Signals(qps, q, i) {
      SignalImpliesCovered(qps, q, i);
    }
  }

  /** Two posts of one queue pair are i - i0 turns of the shared counter apart. */
  lemma CounterDistance(qps: nat, q: nat, i0: nat, i: nat)
    ensures Turn(qps, q, i) - Turn(qps, q, i0) == (i - i0) * qps
  {
  }

  lemma SignalsEveryPeriod(qps: nat, q: nat, i0: nat, i: nat, g: nat, u: nat, p: nat, s: int)
    requires Signals(qps, q, i0)
    requires qps == g * u && 32 == g * p && i - i0 == p * s
    ensures Signals(qps, q, i)
  {
    CounterDistance(qps, q, i0, i);
    PeriodMultiple(p, s, g, u);
    var m0 := Turn(qps, q, i0) / 32;
    ModOfMultiple(32, m0 + s * u, 31);
  }

  lemma SignalsOnlyEveryPeriod(qps: nat, q: nat, i0: nat, i: nat) returns (p: nat, k: int)
    requires qps > 0 && Signals(qps, q, i0) && Signals(qps, q, i)
    ensures p * Gcd(qps, 32) == 32 && i - i0 == p * k
  {
    CounterDistance(qps, q, i0, i);
    var m := Turn(qps, q, i) / 32 - Turn(qps, q, i0) / 32;
    assert (i - i0) * qps == 32 * m;
    p, k := SolveCongruence(qps, i - i0, m);
  }

  lemma SolveCongruence(qps: nat, d: int, m: int) returns (p: nat, k: int)
    requires qps > 0 && d * qps == 32 * m
    ensures p * Gcd(qps, 32) == 32 && d == p * k
  {
    hide Gcd;
    var u, v, x, y := Bezout(qps, 32);
    var g := Gcd(qps, 32);
    MulAssoc(d, g, u);
    MulAssoc(g, v, m);
    CoprimeMultiple(g, u, v, x, y, d, m);
    p, k := v, x * m + y * d;
  }

  /** The signaled posts of a queue pair are exactly an arithmetic progression of period 32 / gcd(qps, 32). */
  lemma SignalPeriod(qps: nat, q: nat, i0: nat, i: nat)
    requires qps > 0 && Signals(qps, q, i0)
    ensures Gcd(qps, 32) <= 32 && 32 % Gcd(qps, 32) == 0
    ensures Signals(qps, q, i) <==> (i - i0) % (32 / Gcd(qps, 32)) == 0
  {
    hide Gcd;
    var u, v, _, _ := Bezout(qps, 32);
    var g := Gcd(qps, 32);
    ExactQuotient(32, g, v);
    if (i - i0) % v == 0 {
      SignalsEveryPeriod(qps, q, i0, i, g, u, v, (i - i0) / v);
    }
    if Signals(qps, q, i) {
      var p, k := SignalsOnlyEveryPeriod(qps, q, i0, i);
      ExactQuotient(32, g, p);
      ModOfMultiple(v, k, 0);
    }
  }

  lemma ExactQuotient(n: nat, g: nat, v: nat)
    requires n > 0 && g > 0 && n == g * v
    ensures v > 0 && g <= n && n % g == 0 && n / g == v
  {
    ModOfMultiple(g, v, 0);
    CancelFactor(g, n / g, v);
    QuotientAtLeastOne(g, v);
  }

  lemma PeriodMultiple(p: int, s: int, g: int, u: int)
    ensures (p * s) * (g * u) == (g * p) * (s * u)
  {
  }

  /** If g is a combination of g * u and g * v, and g * u * d = g * v * m, then v divides d. */
  lemma CoprimeMultiple(g: nat, u: nat, v: nat, x: int, y: int, d: int, m: int)
    requires g > 0 && x * (g * u) + y * (g * v) == g && g * (d * u) == g * (v * m)
    ensures d == v * (x * m + y * d)
  {
  }

  // ---------- how many posts are signaled ----------

  lemma QuotientBefore(p: int, q: int, r: int)
    requires 0 <= r < p
    ensures (p * q + r - 1) / p == if r == 0 then q - 1 else q
  {
    if r == 0 {
      MulSub(p, q, 1);
      DivUnique(p, q - 1, p - 1);
    } else {
      DivUnique(p, q, r - 1);
    }
  }

  lemma QuotientStep(x: int, p: int)
    requires p > 0
    ensures x / p - (x - 1) / p == if x % p == 0 then 1 else 0
  {
    Division(x, p);
    var q, r := x / p, x % p;
    QuotientBefore(p, q, r);
  }

  lemma Division(x: int, p: int)
    requires p > 0
    ensures x == p * (x / p) + x % p && 0 <= x % p < p
  {
  }

  lemma {:induction false} CountOfPeriod(qps: nat, q: nat, i0: nat, p: nat, lo: nat, n: nat)
    requires p > 0 && forall i: nat :: Signals(qps, q, i) <==> (i - i0) % p == 0
    ensures CountSignals(qps, q, lo, n) == (lo + n - 1 - i0) / p - (lo - 1 - i0) / p
  {
    if n > 0 {
      CountOfPeriod(qps, q, i0, p, lo, n - 1);
      QuotientStep(lo + n - 1 - i0, p);
    }
  }

  lemma {:induction false} CountUncovered(qps: nat, q: nat, lo: nat, n: nat)
    requires qps > 0 && !Covered(qps, q)
    ensures CountSignals(qps, q, lo, n) == 0
  {
    if n > 0 {
      CountUncovered(qps, q, lo, n - 1);
      if Signals(qps, q, lo + n - 1) {
        SignalImpliesCovered(qps, q, lo + n - 1);
      }
    }
  }

  lemma CountCovered(qps: nat, q: nat, i0: nat, lo: nat)
    requires qps > 0 && Signals(qps, q, i0)
    ensures CountSignals(qps, q, lo, 32) == Gcd(qps, 32)
  {
    hide Gcd;
    var _, v, _, _ := Bezout(qps, 32);
    var g := Gcd(qps, 32);
    ExactQuotient(32, g, v);
    forall i: nat
      ensures Signals(qps, q, i) <==> (i - i0) % v == 0
    {
      SignalPeriod(qps, q, i0, i);
    }
    CountOfPeriod(qps, q, i0, v, lo, 32);
    ShiftQuotient(v, g, lo - 1 - i0);
  }

  lemma ShiftQuotient(v: nat, g: nat, r: int)
    requires v > 0 && g * v == 32
    ensures (32 + r) / v == g + r / v
  {
    ModOfMultiple(v, g, r);
  }

  /** Of any 32 consecutive posts of a queue pair, gcd(qps, 32) are signaled if it is covered and none if not. */
  lemma WindowCount(qps: nat, q: nat, lo: nat)
    requires qps > 0
    ensures CountSignals(qps, q, lo, 32) == if Covered(qps, q) then Gcd(qps, 32) else 0
  {
    if Covered(qps, q) {
      var i0 := CoveredSignals(qps, q);
      CountCovered(qps, q, i0, lo);
    } else {
      CountUncovered(qps, q, lo, 32);
    }
  }

  lemma EvenProduct(a: int, b: int)
    ensures a % 2 == 0 || b % 2 == 0 ==> (a * b) % 2 == 0
    ensures a % 2 == 1 && b % 2 == 1 ==> (a * b) % 2 == 1
  {
    var h := a / 2;
    if a % 2 == 1 {
      MulDist(b, 2 * h, 1);
    }
    MulAssoc(2, h, b);
    MulAssoc(2, a, b / 2);
    ModOfMultiple(2, h * b, b);
    if b % 2 == 0 {
      ModOfMultiple(2, a * (b / 2), 0);
    }
  }

  lemma OddFactor(g: nat, v: nat, n: nat)
    requires g * v == 2 * n && g % 2 == 1
    ensures v % 2 == 0 && g * (v / 2) == n
  {
    EvenProduct(g, v);
    MulAssoc(g, 2, v / 2);
  }

  lemma OddIsCoprime(qps: nat)
    requires qps % 2 == 1
    ensures Gcd(qps, 32) == 1
  {
    hide Gcd;
    var u, v, _, _ := Bezout(qps, 32);
    var g := Gcd(qps, 32);
    EvenProduct(g, u);
    OddFactor(g, v, 16);
    OddFactor(g, v / 2, 8);
    OddFactor(g, v / 4, 4);
    OddFactor(g, v / 8, 2);
    OddFactor(g, v / 16, 1);
    ExactQuotient(1, g, v / 32);
  }

  lemma EvenIsNot(qps: nat)
    requires qps > 0 && qps % 2 == 0
    ensures Gcd(qps, 32) % 2 == 0
  {
    hide Gcd;
    var _, _, x, y := Bezout(qps, 32);
    EvenProduct(x, qps);
    EvenProduct(y, 32);
    EvenSum(x * qps, y * 32);
  }

  lemma EvenSum(a: int, b: int)
    requires a % 2 == 0 && b % 2 == 0
    ensures (a + b) % 2 == 0
  {
  }

  lemma OddNotMultiple(g: int, n: int)
    requires g > 0 && g % 2 == 0 && n % 2 == 1
    ensures n % g != 0
  {
    Division(n, g);
    var q, r := n / g, n % g;
    EvenProduct(g, q);
    assert r == 0 ==> n == g * q;
  }

  /** With an odd number of queue pairs exactly one of any 32 consecutive posts of each queue pair is signaled. */
  lemma OddCoverage(qps: nat, q: nat, lo: nat)
    requires qps % 2 == 1
    ensures EverSignals(qps, q) && CountSignals(qps, q, lo, 32) == 1
  {
    OddIsCoprime(qps);
    CoverageIff(qps, q);
    WindowCount(qps, q, lo);
  }

  lemma EvenUncovered(qps: nat, q: nat)
    requires qps > 0 && qps % 2 == 0 && q % 2 == 0
    ensures !Covered(qps, q)
  {
    hide Gcd;
    EvenIsNot(qps);
    var g := Gcd(qps, 32);
    if Covered(qps, q) {
      OddNotMultiple(g, 31 - q);
    }
  }

  /** With an even number of queue pairs no even-numbered queue pair ever signals, so half of them never do. */
  lemma EvenStarvation(qps: nat, q: nat)
    requires qps > 0 && qps % 2 == 0 && q % 2 == 0
    ensures !EverSignals(qps, q)
  {
    EvenUncovered(qps, q);
    CoverageIff(qps, q);
  }
}
