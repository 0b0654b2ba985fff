/** The connection manager server and client as ledgers of resources: the ladder that sets a connection up, the
    handler that takes it down, and the two event loops. */
module Cm {

  import opened Ledger

  /** The parts of a connection; the identifier belongs to it but is made by the library or by main. */
  datatype Part = Id | Ctx | Pd | Cq | RecvMr | SendMr | Qp

  datatype Resource = Channel | Listener | Conn(c: nat, part: Part)

  /** What a resource was made from.  The memory regions register buffers inside the context, the queue pair belongs
      to the identifier, and every identifier to the event channel. */
  function Parents(r: Resource): set<Resource> {
    match r
    case Channel => {}
    case Listener => {Channel}
    case Conn(c, Id) => {Channel}
    case Conn(c, Ctx) => {}
    case Conn(c, Pd) => {Conn(c, Id)}
    case Conn(c, Cq) => {Conn(c, Id)}
    case Conn(c, RecvMr) => {Conn(c, Pd), Conn(c, Ctx)}
    case Conn(c, SendMr) => {Conn(c, Pd), Conn(c, Ctx)}
    case Conn(c, Qp) => {Conn(c, Id), Conn(c, Pd), Conn(c, Cq)}
  }

  /** The order in which a connection gets its parts. */
  const LADDER: seq<Part> := [Id, Ctx, Pd, Cq, RecvMr, SendMr, Qp]

  function Rank(p: Part): (n: nat)
    ensures n < |LADDER| && LADDER[n] == p
  {
    match p
    case Id => 0
    case Ctx => 1
    case Pd => 2
    case Cq => 3
    case RecvMr => 4
    case SendMr => 5
    case Qp => 6
  }

  /** Connection c has its first n parts; of everything else, live holds what base holds. */
  ghost predicate At(live: set<Resource>, base: set<Resource>, c: nat, n: nat) {
    forall r :: r in live <==> if r.Conn? && r.c == c then Rank(r.part) < n else r in base
  }

  /** One rung up: the next part is not there yet and what it is made from is. */
  lemma Up(live: set<Resource>, base: set<Resource>, c: nat, p: Part)
    requires At(live, base, c, Rank(p)) && Channel in base
    ensures Conn(c, p) !in live && Parents(Conn(c, p)) <= live
    ensures At(live + {Conn(c, p)}, base, c, Rank(p) + 1)
  {
  }

  /** One rung down: the last part is there and nothing is made from it. */
  lemma Down(live: set<Resource>, base: set<Resource>, c: nat, p: Part)
    requires At(live, base, c, Rank(p) + 1)
    ensures Conn(c, p) in live && forall d :: d in live ==> Conn(c, p) !in Parents(d)
    ensures At(live - {Conn(c, p)}, base, c, Rank(p))
  {
  }

  /** What a setup has acquired, in order, when connection c has its first n parts. */
  function Climb(c: nat, n: nat): seq<Resource>
    requires n <= |LADDER|
  {
    if n <= 1 then [] else Climb(c, n - 1) + [Conn(c, LADDER[n - 1])]
  }

  /** What a connection with n parts releases, in order, until it has m. */
  function Descend(c: nat, n: nat, m: nat): seq<Resource>
    requires n <= |LADDER|
  {
    if n <= m then [] else [Conn(c, LADDER[n - 1])] + Descend(c, n - 1, m)
  }

  /** The six parts by name. */
  lemma ClimbIs(c: nat, n: nat)
    requires 1 <= n <= 7
    ensures
      var parts := [Conn(c, Ctx), Conn(c, Pd), Conn(c, Cq), Conn(c, RecvMr), Conn(c, SendMr), Conn(c, Qp)];
      Climb(c, n) == parts[..n - 1]
  {
    if n > 1 {
      ClimbIs(c, n - 1);
    }
  }

  lemma DescendIs(c: nat)
    ensures Descend(c, 7, 1)
            == [Conn(c, Qp), Conn(c, SendMr), Conn(c, RecvMr), Conn(c, Cq), Conn(c, Pd), Conn(c, Ctx)]
  {
    DescendReverses(c, 7);
    ClimbIs(c, 7);
    hide Climb, Descend;
  }

  /** Going down is going up backwards. */
  lemma {:induction false} DescendReverses(c: nat, n: nat)
    requires 1 <= n <= |LADDER|
    ensures |Climb(c, n)| == |Descend(c, n, 1)| == n - 1
    ensures forall k :: 0 <= k < n - 1 ==> Descend(c, n, 1)[k] == Climb(c, n)[n - 2 - k]
  {
    if n > 1 {
      DescendReverses(c, n - 1);
    }
  }

  /** A connection that got n parts has gone down to m of them. */
  ghost predicate Unwound(start: seq<Resource>, released: seq<Resource>, c: nat, n: nat, m: nat) {
    n <= |LADDER| && m <= |LADDER| && released + Descend(c, m, 1) == start + Descend(c, n, 1)
  }

  lemma UnwoundNext(start: seq<Resource>, released: seq<Resource>, c: nat, n: nat, p: Part)
    requires Unwound(start, released, c, n, Rank(p) + 1) && p != Id
    ensures Unwound(start, released + [Conn(c, p)], c, n, Rank(p))
  {
    assert released + [Conn(c, p)] + Descend(c, Rank(p), 1) == released + Descend(c, Rank(p) + 1, 1);
  }

  lemma ClimbNext(s: Start, c: nat, p: Part)
    requires p != Id
    ensures s.created + Climb(c, Rank(p)) + [Conn(c, p)] == s.created + Climb(c, Rank(p) + 1)
    ensures Unwound(s.released, s.released, c, Rank(p), Rank(p))
    ensures Unwound(s.released, s.released, c, Rank(p) + 1, Rank(p) + 1)
  {
  }

  /** The parts that a connection has after so many successful calls of its setup. */
  function Rungs(done: nat): nat {
    if done < 6 then 1 + done else 7
  }

  lemma RankPositive(p: Part)
    requires p != Id
    ensures 1 <= Rank(p) <= 6
  {
  }

  /** What a handler finds when it starts. */
  datatype Start = Start(live: set<Resource>, created: seq<Resource>, released: seq<Resource>, calls: seq<bool>)

  /** One side of the example, with the library it uses. */
  class Process {
    const lib: Library<Resource>

    ghost predicate Valid()
      reads lib
    {
      lib.Valid() && lib.parents == Parents
    }

    constructor ()
      ensures Valid() && fresh(lib) && lib.live == {} && lib.created == lib.released == [] && lib.orderly
      ensures lib.calls == []
    {
      lib := new Library(Parents);
    }

    /** The connection stands on a rung and has only climbed so far. */
    ghost predicate Climbing(s: Start, c: nat, n: nat)
      reads lib
    {
      && Channel in s.live && At(lib.live, s.live, c, n)
      && n <= |LADDER| && lib.created == s.created + Climb(c, n) && lib.released == s.released
    }

    /** The connection got n parts and has m left. */
    ghost predicate Falling(s: Start, c: nat, n: nat, m: nat)
      reads lib
    {
      At(lib.live, s.live, c, m) && Unwound(s.released, lib.released, c, n, m)
    }

    /** The event channel and an identifier of the process itself. */
    method Open(r: Resource) returns (rc: int, ghost done: nat)
      requires Valid() && lib.live == {} && Parents(r) == {Channel} && r != Channel
      modifies lib
      ensures Valid() && (rc == 0 || rc == 1) && lib.orderly == old(lib.orderly) && lib.released == old(lib.released)
      ensures rc == 0 ==> lib.live == {Channel, r} && Called(old(lib.calls), lib.calls, 2, true)
      ensures rc == 1 ==> done < 2 && StoppedAt(old(lib.calls), lib.calls, done)
      ensures rc == 1 ==> lib.live == if done == 0 then {} else {Channel}
    {
      ghost var start := lib.calls;
      NotCalled(start);
      assert Parents(Channel) == {};
      hide Called, StoppedAt, Parents, lib.Valid;
      done, rc := 0, 1;
      var ok := lib.Acquire(Channel);
      CalledNext(start, start, 0, ok);
      if !ok {
        return;
      }
      done := 1;
      ghost var calls := lib.calls;
      ok := lib.Acquire(r);
      assert lib.live == if ok then {Channel, r} else {Channel};
      CalledNext(start, calls, 1, ok);
      rc := if ok then 0 else 1;
    }

    /** The next rung. */
    method Get(c: nat, p: Part, ghost s: Start) returns (ok: bool)
      requires Valid() && Climbing(s, c, Rank(p)) && p != Id && Called(s.calls, lib.calls, Rank(p) - 1, true)
      modifies lib
      ensures Valid() && lib.orderly == old(lib.orderly)
      ensures if ok then Called(s.calls, lib.calls, Rank(p), true) else StoppedAt(s.calls, lib.calls, Rank(p) - 1)
      ensures var n := if ok then Rank(p) + 1 else Rank(p);
        Climbing(s, c, n) && Falling(s, c, n, n) && lib.created == s.created + Climb(c, n)
    {
      hide At, lib.Valid, Climb, Rank, Unwound, Called, StoppedAt;
      Up(lib.live, s.live, c, p);
      ClimbNext(s, c, p);
      RankPositive(p);
      hide Parents;
      ok := lib.Acquire(Conn(c, p));
      CalledNext(s.calls, old(lib.calls), Rank(p) - 1, ok);
    }

    /** A call that creates nothing, on top of the ladder. */
    method Try(c: nat, ghost s: Start, ghost n: nat) returns (ok: bool)
      requires Valid() && Climbing(s, c, 7) && Called(s.calls, lib.calls, n, true)
      modifies lib
      ensures Valid() && lib.orderly == old(lib.orderly) && Climbing(s, c, 7) && Falling(s, c, 7, 7)
      ensures lib.created == old(lib.created)
      ensures if ok then Called(s.calls, lib.calls, n + 1, true) else StoppedAt(s.calls, lib.calls, n)
    {
      ok := lib.Call();
      CalledNext(s.calls, old(lib.calls), n, ok);
    }

    /** The rung below. */
    method Drop(c: nat, p: Part, ghost s: Start, ghost n: nat)
      requires Valid() && p != Id && Falling(s, c, n, Rank(p) + 1)
      modifies lib
      ensures Valid() && lib.created == old(lib.created) && lib.orderly == old(lib.orderly)
      ensures Falling(s, c, n, Rank(p)) && lib.calls == old(lib.calls)
    {
      Down(lib.live, s.live, c, p);
      UnwoundNext(s.released, lib.released, c, n, p);
      hide At, Parents, Unwound, lib.Valid;
      lib.Release(Conn(c, p));
    }

    /** on_connect_request and on_route_resolved: everything a connection needs, a posted receive, then accept or
        connect: eight calls.  It succeeds iff they all do.  Otherwise it stops at the first that fails, after done
        calls, and releases exactly what was acquired, last first. */
    method SetUp(c: nat) returns (rc: int, ghost done: nat)
      requires Valid() && Channel in lib.live && At(lib.live, lib.live, c, 1)
      modifies lib
      ensures Valid() && lib.orderly == old(lib.orderly) && (rc == 0 || rc == -1)
      ensures Called(old(lib.calls), lib.calls, 8, rc == 0)
      ensures if rc == 0 then done == 8 else done < 8 && StoppedAt(old(lib.calls), lib.calls, done)
      ensures var parts := [Conn(c, Ctx), Conn(c, Pd), Conn(c, Cq), Conn(c, RecvMr), Conn(c, SendMr), Conn(c, Qp)];
        lib.created == old(lib.created) + parts[..if done < 6 then done else 6]
      ensures rc == 0 ==> At(lib.live, old(lib.live), c, 7) && lib.released == old(lib.released)
      ensures rc != 0 ==> lib.live == old(lib.live)
      ensures rc != 0 ==> lib.released == old(lib.released) + Descend(c, Rungs(done), 1)
    {
      ghost var s := Start(lib.live, lib.created, lib.released, lib.calls);
      assert Climbing(s, c, 1);
      assert Descend(c, 1, 1) == [];
      NotCalled(lib.calls);
      hide At, Climb, Descend, Called, StoppedAt, lib.Valid;
      rc, done := Attempt(c, s);
      ClimbIs(c, Rungs(done));
      if rc != 0 {
        Same(lib.live, s.live, c);
      }
    }

    /** The body of the setup, with its labels. */
    method Attempt(c: nat, ghost s: Start) returns (rc: int, ghost done: nat)
      requires Valid() && Climbing(s, c, 1) && Called(s.calls, lib.calls, 0, true)
      modifies lib
      ensures Valid() && lib.orderly == old(lib.orderly) && (rc == 0 || rc == -1)
      ensures if rc == 0 then done == 8 && Called(s.calls, lib.calls, 8, true)
              else done < 8 && StoppedAt(s.calls, lib.calls, done)
      ensures lib.created == s.created + Climb(c, Rungs(done))
      ensures if rc == 0 then Climbing(s, c, 7) else Falling(s, c, Rungs(done), 1)
    {
      hide Valid, At, Unwound, Climbing, Falling, Climb, Called, StoppedAt;
      done := 0;
      var ok := Get(c, Ctx, s);
      if !ok {
        return -1, done;
      }
      label freeCtx: {
        label deallocPd: {
          label destroyCq: {
            label deregRecv: {
              label deregSend: {
                label destroyQp: {
                  done := 1;
                  ok := Get(c, Pd, s);
                  if !ok { break freeCtx; }
                  done := 2;
                  ok := Get(c, Cq, s);
                  if !ok { break deallocPd; }
                  done := 3;
                  ok := Get(c, RecvMr, s);
                  if !ok { break destroyCq; }
                  done := 4;
                  ok := Get(c, SendMr, s);
                  if !ok { break deregRecv; }
                  done := 5;
                  ok := Get(c, Qp, s);
                  if !ok { break deregSend; }
                  done := 6;
                  ok := Try(c, s, 6);
                  if !ok { break destroyQp; }
                  done := 7;
                  ok := Try(c, s, 7);
                  if !ok { break destroyQp; }
                  done := 8;
                  return 0, done;
                }
                Drop(c, Qp, s, Rungs(done));
              }
              Drop(c, SendMr, s, Rungs(done));
            }
            Drop(c, RecvMr, s, Rungs(done));
          }
          Drop(c, Cq, s, Rungs(done));
        }
        Drop(c, Pd, s, Rungs(done));
      }
      Drop(c, Ctx, s, Rungs(done));
      rc := -1;
    }

    /** on_established: a poll, a post and a poll, or a post and two polls.  It returns 0 iff they all succeed.  It may
        only run while everything the connection is made of is there. */
    method Transfer(c: nat) returns (rc: int)
      requires Valid() && At(lib.live, lib.live, c, 7)
      modifies lib`calls
      ensures Valid() && Called(old(lib.calls), lib.calls, 3, rc == 0) && (rc == 0 || rc == -1)
    {
      ghost var before, between := lib.calls, lib.calls;
      NotCalled(before);
      hide Called;
      var ok := lib.Call();
      CalledNext(before, between, 0, ok);
      if !ok {
        CalledMore(before, lib.calls, 1, 3);
        return -1;
      }
      between := lib.calls;
      ok := lib.Call();
      CalledNext(before, between, 1, ok);
      if !ok {
        CalledMore(before, lib.calls, 2, 3);
        return -1;
      }
      between := lib.calls;
      ok := lib.Call();
      CalledNext(before, between, 2, ok);
      rc := if ok then 0 else -1;
    }

    /** on_disconnected: everything but the identifier, last first. */
    method TakeDown(c: nat)
      requires Valid() && At(lib.live, lib.live, c, 7)
      modifies lib
      ensures Valid() && lib.created == old(lib.created) && lib.orderly == old(lib.orderly)
      ensures At(lib.live, old(lib.live), c, 1) && lib.calls == old(lib.calls)
      ensures lib.released == old(lib.released) +
                [Conn(c, Qp), Conn(c, SendMr), Conn(c, RecvMr), Conn(c, Cq), Conn(c, Pd), Conn(c, Ctx)]
    {
      ghost var s := Start(lib.live, lib.created, lib.released, lib.calls);
      assert Falling(s, c, 7, 7);
      TakeAll(c, s);
      DescendIs(c);
    }

    method TakeAll(c: nat, ghost s: Start)
      requires Valid() && Falling(s, c, 7, 7)
      modifies lib
      ensures Valid() && lib.created == old(lib.created) && lib.orderly == old(lib.orderly)
      ensures Falling(s, c, 7, 1) && lib.calls == old(lib.calls)
    {
      hide Valid, At, Unwound, Falling, Climb;
      Drop(c, Qp, s, 7);
      Drop(c, SendMr, s, 7);
      Drop(c, RecvMr, s, 7);
      Drop(c, Cq, s, 7);
      Drop(c, Pd, s, 7);
      Drop(c, Ctx, s, 7);
    }
  }

  lemma AtSelf(live: set<Resource>, base: set<Resource>, c: nat, n: nat)
    requires At(live, base, c, n)
    ensures At(live, live, c, n)
  {
  }

  lemma AtSame(live: set<Resource>, with: set<Resource>, base: set<Resource>, c: nat, n: nat, m: nat)
    requires At(live, with, c, n) && At(with, base, c, m)
    ensures At(live, base, c, n)
  {
  }

  lemma Same(live: set<Resource>, base: set<Resource>, c: nat)
    requires At(live, base, c, 1) && At(base, base, c, 1)
    ensures live == base
  {
  }
}
