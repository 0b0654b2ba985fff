/** A library that hands out resources and takes them back. */
module Ledger {

  /** n calls that succeed. */
  function Successes(n: nat): (r: seq<bool>)
    ensures |r| == n && false !in r
  {
    seq(n, (_: nat) => true)
  }

  /** Between two moments of a history of calls: j calls that succeed and one that fails. */
  ghost predicate StoppedAt(before: seq<bool>, after: seq<bool>, j: nat) {
    after == before + Successes(j) + [false]
  }

  /** Between two moments of a history of calls: n calls, all successful, or fewer than n that were and one that was
      not. */
  ghost predicate Called(before: seq<bool>, after: seq<bool>, n: nat, ok: bool) {
    if ok then after == before + Successes(n)
    else exists j: nat :: j < n && StoppedAt(before, after, j)
  }

  lemma NotCalled(calls: seq<bool>)
    ensures Called(calls, calls, 0, true)
  {
  }

  lemma CalledNext(before: seq<bool>, after: seq<bool>, n: nat, ok: bool)
    requires Called(before, after, n, true)
    ensures Called(before, after + [ok], n + 1, ok) && (!ok ==> StoppedAt(before, after + [ok], n))
  {
    assert !ok ==> StoppedAt(before, after + [ok], n);
    assert Successes(n) + [true] == Successes(n + 1);
    assert before + Successes(n) + [true] == before + Successes(n + 1);
  }

  lemma CalledMore(before: seq<bool>, after: seq<bool>, n: nat, m: nat)
    requires Called(before, after, n, false) && n <= m
    ensures Called(before, after, m, false)
  {
  }

  lemma CalledAfter(before: seq<bool>, between: seq<bool>, after: seq<bool>, n: nat, m: nat, ok: bool)
    requires Called(before, between, n, true) && Called(between, after, m, ok)
    ensures Called(before, after, n + m, ok)
  {
    if ok {
      assert Successes(n) + Successes(m) == Successes(n + m);
      assert before + Successes(n) + Successes(m) == before + Successes(n + m);
    } else {
      var j: nat :| j < m && StoppedAt(between, after, j);
      assert Successes(n) + Successes(j) == Successes(n + j);
      assert before + Successes(n) + Successes(j) + [false] == before + Successes(n + j) + [false];
      assert StoppedAt(before, after, n + j);
    }
  }

  /** The calls between two moments of a history all succeeded iff ok. */
  ghost predicate Clean(before: seq<bool>, after: seq<bool>, ok: bool) {
    before <= after && (ok <==> false !in after[|before|..])
  }

  lemma CleanPrefix(before: seq<bool>, after: seq<bool>, ok: bool)
    requires Clean(before, after, ok)
    ensures before <= after
  {
  }

  lemma CleanAfter(before: seq<bool>, between: seq<bool>, after: seq<bool>, ok: bool)
    requires Clean(before, between, true) && Clean(between, after, ok)
    ensures Clean(before, after, ok)
  {
    assert after[|before|..] == between[|before|..] + after[|between|..];
  }

  /** The calls of a series of n succeeded iff none of them failed. */
  lemma CalledClean(before: seq<bool>, after: seq<bool>, n: nat, ok: bool)
    requires Called(before, after, n, ok)
    ensures Clean(before, after, ok)
  {
    if ok {
      assert after[|before|..] == Successes(n);
    } else {
      var j: nat :| j < n && StoppedAt(before, after, j);
      assert after[|before|..] == Successes(j) + [false];
    }
  }

  lemma CalledFromNothing(calls: seq<bool>, n: nat, ok: bool)
    requires Called([], calls, n, ok)
    ensures ok <==> false !in calls
    ensures if ok then |calls| == n else 0 < |calls| <= n && false !in calls[..|calls| - 1]
  {
    CalledClean([], calls, n, ok);
    assert calls[0..] == calls;
    if !ok {
      var j: nat :| j < n && StoppedAt([], calls, j);
      assert calls[..j] == Successes(j);
    } else {
      assert calls == Successes(n);
    }
  }

  /** Every creation may fail.  Nothing is created from what is not there and nothing is released that is not there;
      whether a release came before that of everything made from the resource is recorded. */
  class Library<R(==, !new)> {
    ghost const parents: R -> set<R>
    ghost var live: set<R>
    ghost var created: seq<R>
    ghost var released: seq<R>
    /** No resource was released while something made from it was live. */
    ghost var orderly: bool
    /** The calls that may fail, in order, and whether they succeeded. */
    ghost var calls: seq<bool>

    /** What was created and not released is live, as often as that is. */
    ghost predicate Valid()
      reads this
    {
      multiset(created) == multiset(released) + multiset(live)
    }

    constructor (ghost parents: R -> set<R>)
      ensures Valid() && this.parents == parents && live == {} && created == released == [] && orderly
      ensures calls == []
    {
      this.parents, live, created, released, orderly, calls := parents, {}, [], [], true, [];
    }

    /** An acquisition that may fail. */
    method Acquire(ghost r: R) returns (ok: bool)
      requires Valid() && r !in live && parents(r) <= live
      modifies this
      ensures Valid() && released == old(released) && orderly == old(orderly)
      ensures live == if ok then old(live) + {r} else old(live)
      ensures created == if ok then old(created) + [r] else old(created)
      ensures calls == old(calls) + [ok]
    {
      ok := *;
      calls := calls + [ok];
      if ok {
        live, created := live + {r}, created + [r];
      }
    }

    /** Any other call that may fail. */
    method Call() returns (ok: bool)
      modifies this`calls
      ensures calls == old(calls) + [ok]
    {
      ok := *;
      calls := calls + [ok];
    }

    /** The library makes a resource of its own accord. */
    method Deliver(ghost r: R)
      requires Valid() && r !in live && parents(r) <= live
      modifies this
      ensures Valid() && released == old(released) && orderly == old(orderly)
      ensures live == old(live) + {r} && created == old(created) + [r] && calls == old(calls)
    {
      live, created := live + {r}, created + [r];
    }

    method Release(ghost r: R)
      requires Valid() && r in live
      modifies this
      ensures Valid() && created == old(created)
      ensures live == old(live) - {r} && released == old(released) + [r] && calls == old(calls)
      ensures orderly == (old(orderly) && forall d :: d in live ==> r !in parents(d))
    {
      live, released := live - {r}, released + [r];
      orderly := orderly && forall d :: d in live ==> r !in parents(d);
    }
  }
}
