/** Setting up the shared receive queue demo and taking it down again.  Any call of the initialisation may fail, in
    the middle of its loops too; the program then calls the same cleanup that ends a complete run. */
module SrqTeardown {

  import opened Ledger

  datatype Resource = Context | Pd | Cq | SharedQueue | Pool | PoolMr | SendMr | SendQp(i: nat) | RecvQp(i: nat)

  /** What a resource was created from and therefore must not outlive. */
  function Parents(r: Resource): set<Resource> {
    match r
    case Context => {}
    case Pd => {Context}
    case Cq => {Context}
    case SharedQueue => {Pd}
    case Pool => {}
    case PoolMr => {Pd, Pool}
    case SendMr => {Pd}
    case SendQp(_) => {Pd, Cq}
    case RecvQp(_) => {Pd, Cq, SharedQueue}
  }

  /** The place of a resource in the order of creation. */
  function Rank(r: Resource): nat {
    match r
    case Context => 0
    case Pd => 1
    case Cq => 2
    case SharedQueue => 3
    case Pool => 4
    case PoolMr => 5
    case SendMr => 6
    case SendQp(i) => 7 + 2 * i
    case RecvQp(i) => 8 + 2 * i
  }

  lemma SharedRanks()
    ensures Rank(Context) == 0 && Rank(Pd) == 1 && Rank(Cq) == 2 && Rank(SharedQueue) == 3
    ensures Rank(Pool) == 4 && Rank(PoolMr) == 5 && Rank(SendMr) == 6
  {
  }

  /** Exactly the first n resources of the order of creation are live. */
  ghost predicate Prefix(live: set<Resource>, n: nat) {
    forall r :: r in live <==> Rank(r) < n
  }

  /** The next resource can be created: it is not there yet, what it is made from is. */
  lemma PrefixNext(live: set<Resource>, r: Resource)
    requires Prefix(live, Rank(r))
    ensures r !in live && Parents(r) <= live
    ensures Prefix(live + {r}, Rank(r) + 1)
  {
  }

  /** The global structure: which of its pointers are set. */
  datatype Pointers = Pointers(
    ctx: bool, pd: bool, cq: bool, srq: bool, pool: bool, poolMr: bool, sendMr: bool,
    sendQps: seq<bool>, recvQps: seq<bool>)

  /** The pointer to a resource is set. */
  predicate IsSet(p: Pointers, r: Resource) {
    match r
    case Context => p.ctx
    case Pd => p.pd
    case Cq => p.cq
    case SharedQueue => p.srq
    case Pool => p.pool
    case PoolMr => p.poolMr
    case SendMr => p.sendMr
    case SendQp(i) => i < |p.sendQps| && p.sendQps[i]
    case RecvQp(i) => i < |p.recvQps| && p.recvQps[i]
  }

  /** Exactly the live resources have a pointer. */
  ghost predicate Matches(live: set<Resource>, p: Pointers) {
    forall r :: r in live <==> IsSet(p, r)
  }

  /** The pointer to r replaced. */
  function Put(p: Pointers, r: Resource, ok: bool): Pointers
    requires r.SendQp? ==> r.i < |p.sendQps|
    requires r.RecvQp? ==> r.i < |p.recvQps|
  {
    match r
    case Context => p.(ctx := ok)
    case Pd => p.(pd := ok)
    case Cq => p.(cq := ok)
    case SharedQueue => p.(srq := ok)
    case Pool => p.(pool := ok)
    case PoolMr => p.(poolMr := ok)
    case SendMr => p.(sendMr := ok)
    case SendQp(i) => p.(sendQps := p.sendQps[i := ok])
    case RecvQp(i) => p.(recvQps := p.recvQps[i := ok])
  }

  lemma PutIsSet(p: Pointers, r: Resource, ok: bool, s: Resource)
    requires r.SendQp? ==> r.i < |p.sendQps|
    requires r.RecvQp? ==> r.i < |p.recvQps|
    ensures IsSet(Put(p, r, ok), s) == if s == r then ok else IsSet(p, s)
  {
  }

  lemma MatchesCreated(live: set<Resource>, p: Pointers, r: Resource, ok: bool)
    requires r.SendQp? ==> r.i < |p.sendQps|
    requires r.RecvQp? ==> r.i < |p.recvQps|
    requires Matches(live, p) && r !in live
    ensures Matches(if ok then live + {r} else live, Put(p, r, ok))
  {
    forall s
      ensures s in (if ok then live + {r} else live) <==> IsSet(Put(p, r, ok), s)
    {
      PutIsSet(p, r, ok, s);
    }
  }

  /** The place of a resource in the order of the cleanup, for n pairs of queue pairs. */
  function Turn(r: Resource, n: nat): nat {
    match r
    case RecvQp(i) => 2 * i
    case SendQp(i) => 2 * i + 1
    case SendMr => 2 * n
    case PoolMr => 2 * n + 1
    case SharedQueue => 2 * n + 2
    case Cq => 2 * n + 3
    case Pd => 2 * n + 4
    case Context => 2 * n + 5
    case Pool => 2 * n + 6
  }

  /** The cleanup has come to turn k: what has a pointer and its turn to come is live, nothing else is. */
  ghost predicate Left(live: set<Resource>, p: Pointers, k: nat) {
    forall r :: r in live <==> IsSet(p, r) && Turn(r, |p.sendQps|) >= k
  }

  /** The turns of the resources that exist once. */
  lemma SharedTurns(p: Pointers)
    ensures
      var n := |p.sendQps|;
      && Turn(SendMr, n) == 2 * n
      && Turn(PoolMr, n) == 2 * n + 1
      && Turn(SharedQueue, n) == 2 * n + 2
      && Turn(Cq, n) == 2 * n + 3
      && Turn(Pd, n) == 2 * n + 4
      && Turn(Context, n) == 2 * n + 5
      && Turn(Pool, n) == 2 * n + 6
    ensures IsSet(p, SendMr) == p.sendMr && IsSet(p, PoolMr) == p.poolMr && IsSet(p, SharedQueue) == p.srq
    ensures IsSet(p, Cq) == p.cq && IsSet(p, Pd) == p.pd && IsSet(p, Context) == p.ctx && IsSet(p, Pool) == p.pool
  {
  }

  /** At its turn a resource is live if its pointer is set, and nothing made from it is left. */
  lemma LeftNext(live: set<Resource>, p: Pointers, r: Resource)
    requires |p.sendQps| == |p.recvQps| && (r.SendQp? || r.RecvQp? ==> r.i < |p.sendQps|)
    requires Left(live, p, Turn(r, |p.sendQps|))
    ensures r in live <==> IsSet(p, r)
    ensures forall d :: d in live ==> r !in Parents(d)
    ensures Left(live - {r}, p, Turn(r, |p.sendQps|) + 1)
  {
    forall d | d in live && d != r
      ensures Turn(d, |p.sendQps|) != Turn(r, |p.sendQps|) && r !in Parents(d)
    {
    }
  }

  /** After the last turn nothing is left. */
  lemma LeftNone(live: set<Resource>, p: Pointers)
    requires |p.sendQps| == |p.recvQps| && Left(live, p, 2 * |p.sendQps| + 7)
    ensures live == {}
  {
  }

  /** The program with its global structure g. */
  class Demo {
    const queuePairs: nat
    const buffers: nat
    const lib: Library<Resource>
    var g: Pointers

    ghost predicate Usable()
      reads lib
    {
      lib.Valid() && lib.parents == Parents && lib.orderly
    }

    /** Exactly the live resources have a pointer. */
    ghost predicate Valid()
      reads this, lib
    {
      Usable() && |g.sendQps| == |g.recvQps| == queuePairs && Matches(lib.live, g)
    }

    /** Zeroed memory and no resource. */
    constructor (queuePairs: nat, buffers: nat)
      ensures Valid() && this.queuePairs == queuePairs && this.buffers == buffers && lib.live == {} && fresh(lib)
      ensures lib.created == lib.released == [] && lib.calls == []
    {
      this.queuePairs, this.buffers := queuePairs, buffers;
      lib := new Library(Parents);
      var none := seq(queuePairs, (_: nat) => false);
      g := Pointers(false, false, false, false, false, false, false, none, none);
    }

    /** One creating call, after n others of a series of all. */
    method Create(r: Resource, ghost start: seq<bool>, ghost n: nat, ghost all: nat) returns (ok: bool)
      requires Valid() && Prefix(lib.live, Rank(r)) && (r.SendQp? || r.RecvQp? ==> r.i < queuePairs)
      requires n < all && Called(start, lib.calls, n, true)
      modifies this, lib
      ensures Valid() && lib.released == old(lib.released)
      ensures Prefix(lib.live, if ok then Rank(r) + 1 else Rank(r))
      ensures Called(start, lib.calls, if ok then n + 1 else all, ok)
    {
      PrefixNext(lib.live, r);
      hide lib.Valid, Parents, Prefix, Rank, Matches, IsSet, Called;
      ok := lib.Acquire(r);
      CalledNext(start, old(lib.calls), n, ok);
      if !ok {
        CalledMore(start, lib.calls, n + 1, all);
      }
      MatchesCreated(old(lib.live), g, r, ok);
      g := Put(g, r, ok);
    }

    /** A call that creates nothing, after n others of a series of all. */
    method Try(ghost start: seq<bool>, ghost n: nat, ghost all: nat) returns (ok: bool)
      requires n < all && Called(start, lib.calls, n, true)
      modifies lib`calls
      ensures Called(start, lib.calls, if ok then n + 1 else all, ok)
    {
      hide Called;
      ok := lib.Call();
      CalledNext(start, old(lib.calls), n, ok);
      if !ok {
        CalledMore(start, lib.calls, n + 1, all);
      }
    }

    /** The context and what is made from it, up to the buffers and their registration: nine calls. */
    method InitShared() returns (rc: int)
      requires Valid() && Prefix(lib.live, 0)
      modifies this, lib
      ensures Valid() && lib.released == old(lib.released)
      ensures Called(old(lib.calls), lib.calls, 9, rc == 0)
      ensures rc == 0 ==> Prefix(lib.live, 7)
    {
      ghost var start := lib.calls;
      NotCalled(start);
      SharedRanks();
      hide Valid, Prefix, Called, Rank;
      rc := -1;
      var ok := Create(Context, start, 0, 9);
      if !ok { return; }
      ok := Try(start, 1, 9);
      if !ok { return; }
      ok := Create(Pd, start, 2, 9);
      if !ok { return; }
      ok := Create(Cq, start, 3, 9);
      if !ok { return; }
      ok := Create(SharedQueue, start, 4, 9);
      if !ok { return; }
      ok := Try(start, 5, 9);
      if !ok { return; }
      ok := Create(Pool, start, 6, 9);
      if !ok { return; }
      ok := Create(PoolMr, start, 7, 9);
      if !ok { return; }
      ok := Create(SendMr, start, 8, 9);
      if !ok { return; }
      rc := 0;
    }

    /** The loop that posts every buffer to the shared receive queue. */
    method PostBuffers() returns (rc: int)
      modifies lib`calls
      ensures Called(old(lib.calls), lib.calls, buffers, rc == 0)
    {
      NotCalled(lib.calls);
      hide Called;
      for i := 0 to buffers
        invariant Called(old(lib.calls), lib.calls, i, true)
      {
        var ok := Try(old(lib.calls), i, buffers);
        if !ok {
          return -1;
        }
      }
      rc := 0;
    }

    /** The loop that creates a send and a receive queue pair for each index. */
    method InitQueuePairs() returns (rc: int)
      requires Valid() && Prefix(lib.live, 7)
      modifies this, lib
      ensures Valid() && lib.released == old(lib.released)
      ensures Called(old(lib.calls), lib.calls, 2 * queuePairs, rc == 0)
      ensures rc == 0 ==> Prefix(lib.live, 7 + 2 * queuePairs)
    {
      ghost var start := lib.calls;
      NotCalled(start);
      hide Valid, Prefix, Called;
      var i := 0;
      while i < queuePairs
        invariant i <= queuePairs && Valid() && lib.released == old(lib.released)
        invariant Prefix(lib.live, 7 + 2 * i) && Called(start, lib.calls, 2 * i, true)
      {
        var ok := Create(SendQp(i), start, 2 * i, 2 * queuePairs);
        if !ok {
          return -1;
        }
        ok := Create(RecvQp(i), start, 2 * i + 1, 2 * queuePairs);
        if !ok {
          return -1;
        }
        i := i + 1;
      }
      rc := 0;
    }

    /** The loop that takes both queue pairs of each index through three transitions each. */
    method ConnectQueuePairs() returns (rc: int)
      modifies lib`calls
      ensures Called(old(lib.calls), lib.calls, 6 * queuePairs, rc == 0)
    {
      NotCalled(lib.calls);
      hide Called;
      for i := 0 to queuePairs
        invariant Called(old(lib.calls), lib.calls, 6 * i, true)
      {
        for j := 0 to 6
          invariant Called(old(lib.calls), lib.calls, 6 * i + j, true)
        {
          var ok := Try(old(lib.calls), 6 * i + j, 6 * queuePairs);
          if !ok {
            return -1;
          }
        }
      }
      rc := 0;
    }

    /** init_resources from the opening of the device on.  It succeeds iff all its calls do and stops at the first that
        does not.  Wherever it fails, exactly the live resources have a pointer; if it succeeds, all of them are
        live. */
    method InitResources() returns (rc: int)
      requires Valid() && lib.live == {}
      modifies this, lib
      ensures Valid() && lib.released == old(lib.released)
      ensures Called(old(lib.calls), lib.calls, 9 + buffers + 8 * queuePairs, rc == 0)
      ensures rc == 0 ==> Prefix(lib.live, 7 + 2 * queuePairs)
    {
      assert Prefix(lib.live, 0);
      ghost var start, n, all := lib.calls, 9, 9 + buffers + 8 * queuePairs;
      hide Matches, lib.Valid, Prefix, Called;
      rc := InitShared();
      label failed: {
        if rc != 0 { break failed; }
        ghost var before := lib.calls;
        rc := PostBuffers();
        CalledAfter(start, before, lib.calls, n, buffers, rc == 0);
        n := n + buffers;
        if rc != 0 { break failed; }
        before := lib.calls;
        rc := InitQueuePairs();
        CalledAfter(start, before, lib.calls, n, 2 * queuePairs, rc == 0);
        n := n + 2 * queuePairs;
        if rc != 0 { break failed; }
        before := lib.calls;
        rc := ConnectQueuePairs();
        CalledAfter(start, before, lib.calls, n, 6 * queuePairs, rc == 0);
        return;
      }
      CalledMore(start, lib.calls, n, all);
    }

    /** One line of the cleanup: releases what the pointer stands for, if it is set. */
    method ReleaseIf(pointer: bool, ghost r: Resource)
      requires Usable() && |g.sendQps| == |g.recvQps|
      requires (r.SendQp? || r.RecvQp? ==> r.i < |g.sendQps|) && pointer == IsSet(g, r)
      requires Left(lib.live, g, Turn(r, |g.sendQps|))
      modifies lib
      ensures Usable() && lib.created == old(lib.created) && lib.calls == old(lib.calls)
      ensures Left(lib.live, g, Turn(r, |g.sendQps|) + 1)
    {
      LeftNext(lib.live, g, r);
      hide Left, Parents, IsSet, Turn;
      if pointer {
        lib.Release(r);
      } else {
        assert lib.live - {r} == lib.live;
      }
    }

    /** The loop of the cleanup. */
    method ReleaseQueuePairs()
      requires Valid()
      modifies lib
      ensures Usable() && lib.created == old(lib.created) && lib.calls == old(lib.calls)
      ensures Left(lib.live, g, 2 * queuePairs)
    {
      assert Left(lib.live, g, 0);
      hide Left, Matches, Parents, Usable;
      var i := 0;
      while i < queuePairs
        invariant i <= queuePairs && Usable() && lib.created == old(lib.created) && lib.calls == old(lib.calls)
        invariant Left(lib.live, g, 2 * i)
      {
        ReleaseIf(g.recvQps[i], RecvQp(i));
        ReleaseIf(g.sendQps[i], SendQp(i));
        i := i + 1;
      }
    }

    /** The rest of the cleanup. */
    method ReleaseShared()
      requires Usable() && |g.sendQps| == |g.recvQps|
      requires Left(lib.live, g, 2 * |g.sendQps|)
      modifies lib
      ensures Usable() && lib.created == old(lib.created) && lib.calls == old(lib.calls) && lib.live == {}
    {
      hide Left, Parents, Usable;
      SharedTurns(g);
      hide IsSet, Turn;
      ReleaseIf(g.sendMr, SendMr);
      ReleaseIf(g.poolMr, PoolMr);
      ReleaseIf(g.srq, SharedQueue);
      ReleaseIf(g.cq, Cq);
      ReleaseIf(g.pd, Pd);
      ReleaseIf(g.ctx, Context);
      ReleaseIf(g.pool, Pool);
      LeftNone(lib.live, g);
    }

    /** Releases every resource that was created, each once and none before what was created from it. */
    method Cleanup()
      requires Valid()
      modifies lib
      ensures lib.Valid() && lib.orderly && lib.live == {} && lib.created == old(lib.created)
      ensures lib.calls == old(lib.calls)
      ensures multiset(lib.released) == multiset(lib.created)
    {
      ReleaseQueuePairs();
      ReleaseShared();
    }
  }

  /** Whatever fails, a run leaves nothing behind, releases nothing twice and nothing before what was made from it; a
      run that gets through creates and releases every resource exactly once.  It gets through iff no call fails. */
  method Lifecycle(queuePairs: nat, buffers: nat) returns (d: Demo, rc: int)
    ensures rc == 0 <==> false !in d.lib.calls
    ensures rc == 0 ==> |d.lib.calls| == 9 + buffers + 8 * queuePairs
    ensures rc != 0 ==> |d.lib.calls| <= 9 + buffers + 8 * queuePairs && false !in d.lib.calls[..|d.lib.calls| - 1]
    ensures fresh(d) && d.lib.orderly && d.lib.live == {} && multiset(d.lib.released) == multiset(d.lib.created)
    ensures forall r :: multiset(d.lib.released)[r] <= 1
    ensures rc == 0 ==> forall r :: multiset(d.lib.released)[r] == if Rank(r) < 7 + 2 * queuePairs then 1 else 0
  {
    d := new Demo(queuePairs, buffers);
    rc := d.InitResources();
    CalledFromNothing(d.lib.calls, 9 + buffers + 8 * queuePairs, rc == 0);
    ghost var live := d.lib.live;
    assert multiset(d.lib.created) == multiset(live);
    d.Cleanup();
  }
}
