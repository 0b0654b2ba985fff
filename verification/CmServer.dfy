/** The event loop of the connection manager server: what is live at its end, for every sequence of events the
    connection manager may deliver. */
module CmServer {

  import opened Ledger
  import opened Cm

  datatype Event = ConnectRequest(c: nat) | Established(c: nat) | Disconnected(c: nat) | Unexpected

  /** A handled event and whether its handler returned 0. */
  datatype Entry = Entry(event: Event, ok: bool)

  /** The connection manager makes a new identifier for every request and reports nothing else about an identifier
      before its request or after its disconnection. */
  ghost predicate Obeys(events: seq<Event>) {
    forall i :: 0 <= i < |events| ==> Follows(events[..i], events[i])
  }

  predicate Follows(before: seq<Event>, e: Event) {
    match e
    case ConnectRequest(c) => ConnectRequest(c) !in before && Disconnected(c) !in before
    case Established(c) => ConnectRequest(c) in before && Disconnected(c) !in before
    case Disconnected(c) => ConnectRequest(c) in before && Disconnected(c) !in before
    case Unexpected => true
  }

  /** The loop ends after this entry. */
  predicate Stops(e: Entry) {
    !e.ok || e.event.Disconnected? || e.event.Unexpected?
  }

  /** The log of a loop that took the events in order and went on for as long as it should. */
  ghost predicate LogOf(log: seq<Entry>, events: seq<Event>) {
    && |log| <= |events|
    && (forall i :: 0 <= i < |log| ==> log[i].event == events[i])
    && (forall i :: 0 <= i < |log| - 1 ==> !Stops(log[i]))
  }

  /** What the log says is live.  A connection whose setup failed has lost everything but its identifier. */
  predicate Holds(log: seq<Entry>, r: Resource) {
    match r
    case Channel => true
    case Listener => true
    case Conn(c, p) =>
      && Entry(Disconnected(c), true) !in log
      && (Entry(ConnectRequest(c), true) in log || (p == Id && Entry(ConnectRequest(c), false) in log))
  }

  /** The live resources are those of the log. */
  ghost predicate Accounts(live: set<Resource>, log: seq<Entry>) {
    forall r :: r in live <==> Holds(log, r)
  }

  /** The next event meets the connection it is about in the right state. */
  lemma Ready(live: set<Resource>, log: seq<Entry>, events: seq<Event>)
    requires Obeys(events) && LogOf(log, events) && (log == [] || !Stops(log[|log| - 1])) && |log| < |events|
    requires Accounts(live, log)
    ensures Channel in live
    ensures var e := events[|log|];
      && (e.ConnectRequest? ==> At(live, live, e.c, 0))
      && (e.ConnectRequest? ==> forall ok :: Entry(Disconnected(e.c), ok) !in log)
      && (e.Established? || e.Disconnected? ==> At(live, live, e.c, 7))
  {
  }

  /** What a handler does to the live resources is what its entry says. */
  lemma Logged(before: set<Resource>, live: set<Resource>, log: seq<Entry>, entry: Entry)
    requires Accounts(before, log)
    requires
      match entry.event
      case ConnectRequest(c) => At(before, before, c, 0) && At(live, before, c, if entry.ok then 7 else 1)
      case Established(_) => live == before
      case Disconnected(c) => entry.ok && At(live, before, c, 0)
      case Unexpected => live == before
    requires forall c, ok :: entry.event == ConnectRequest(c) ==> Entry(Disconnected(c), ok) !in log
    ensures Accounts(live, log + [entry])
  {
  }

  /** on_connect_request, with the identifier that the library made for the event. */
  method OnConnectRequest(process: Process, c: nat) returns (rc: int)
    requires process.Valid() && Channel in process.lib.live && At(process.lib.live, process.lib.live, c, 0)
    modifies process.lib
    ensures process.Valid() && process.lib.orderly == old(process.lib.orderly)
    ensures At(process.lib.live, old(process.lib.live), c, if rc == 0 then 7 else 1)
    ensures Called(old(process.lib.calls), process.lib.calls, 8, rc == 0)
  {
    ghost var before := process.lib.live;
    Up(before, before, c, Id);
    process.lib.Deliver(Conn(c, Id));
    ghost var with := process.lib.live;
    AtSelf(with, before, c, 1);
    hide At, Called;
    ghost var done;
    rc, done := process.SetUp(c);
    if rc == 0 {
      AtSame(process.lib.live, with, before, c, 7, 1);
    }
  }

  /** on_disconnected: the connection and its identifier. */
  method OnDisconnected(process: Process, c: nat) returns (rc: int)
    requires process.Valid() && At(process.lib.live, process.lib.live, c, 7)
    modifies process.lib
    ensures process.Valid() && process.lib.orderly == old(process.lib.orderly) && rc == 0
    ensures At(process.lib.live, old(process.lib.live), c, 0) && process.lib.calls == old(process.lib.calls)
  {
    process.TakeDown(c);
    Down(process.lib.live, old(process.lib.live), c, Id);
    hide At, Parents;
    process.lib.Release(Conn(c, Id));
    rc := 0;
  }

  /** One turn of the loop.  The handler returns 0, which is what gets logged, iff none of its calls fails. */
  method Handle(process: Process, e: Event, ghost log: seq<Entry>, ghost events: seq<Event>) returns (rc: int)
    requires process.Valid() && Accounts(process.lib.live, log) && Obeys(events) && LogOf(log, events)
    requires (log == [] || !Stops(log[|log| - 1])) && |log| < |events| && e == events[|log|]
    modifies process.lib
    ensures process.Valid() && process.lib.orderly == old(process.lib.orderly)
    ensures Accounts(process.lib.live, log + [Entry(e, rc == 0)])
    ensures Clean(old(process.lib.calls), process.lib.calls, rc == 0)
    ensures var n := if e.ConnectRequest? then 8 else if e.Established? then 3 else 0;
            Called(old(process.lib.calls), process.lib.calls, n, rc == 0)
  {
    hide At, Accounts, Holds, Obeys, LogOf, Called, Clean;
    ghost var before, calls := process.lib.live, process.lib.calls;
    Ready(before, log, events);
    NotCalled(calls);
    match e {
      case ConnectRequest(c) => rc := OnConnectRequest(process, c);
      case Established(c) => rc := process.Transfer(c);
      case Disconnected(c) => rc := OnDisconnected(process, c);
      case Unexpected => rc := 0;
    }
    CalledClean(calls, process.lib.calls, if e.ConnectRequest? then 8 else if e.Established? then 3 else 0, rc == 0);
    Logged(before, process.lib.live, log, Entry(e, rc == 0));
  }

  lemma LogGrows(log: seq<Entry>, events: seq<Event>, ok: bool)
    requires LogOf(log, events) && |log| < |events| && (log == [] || !Stops(log[|log| - 1]))
    ensures LogOf(log + [Entry(events[|log|], ok)], events)
  {
  }

  /** The loop has no more to do: it stopped, or waiting for an event failed. */
  ghost predicate Ended(log: seq<Entry>, events: seq<Event>) {
    LogOf(log, events) && (|log| == |events| || (log != [] && Stops(log[|log| - 1])))
  }

  /** The event loop.  Once events runs out, waiting for the next one fails. */
  method Loop(process: Process, events: seq<Event>) returns (ghost log: seq<Entry>)
    requires process.Valid() && process.lib.live == {Channel, Listener} && Obeys(events)
    modifies process.lib
    ensures process.Valid() && process.lib.orderly == old(process.lib.orderly)
    ensures Ended(log, events) && Accounts(process.lib.live, log)
    ensures Clean(old(process.lib.calls), process.lib.calls, AllOk(log))
    ensures forall i :: 0 <= i < |log| ==> i < |events| && log[i].event == events[i]
    ensures forall i :: 0 <= i < |log| - 1 ==> log[i].ok && (log[i].event.ConnectRequest? || log[i].event.Established?)
    ensures |log| < |events| ==>
              && log != []
              && var last := log[|log| - 1]; !last.ok || last.event.Disconnected? || last.event.Unexpected?
  {
    log := [];
    ghost var start := process.lib.calls;
    assert Accounts(process.lib.live, log);
    assert LogOf(log, events);
    assert Clean(start, start, true);
    hide Accounts, Obeys, Holds, LogOf, Clean;
    var stop, i := false, 0;
    while !stop && i < |events|
      invariant i == |log| <= |events| && LogOf(log, events)
      invariant stop <==> log != [] && Stops(log[|log| - 1])
      invariant process.Valid() && process.lib.orderly == old(process.lib.orderly)
      invariant Accounts(process.lib.live, log)
      invariant Clean(start, process.lib.calls, log == [] || log[|log| - 1].ok)
    {
      var e := events[i];
      ghost var between := process.lib.calls;
      var rc := Handle(process, e, log, events);
      LogGrows(log, events, rc == 0);
      CleanAfter(start, between, process.lib.calls, rc == 0);
      log, i := log + [Entry(e, rc == 0)], i + 1;
      stop := rc != 0 || e.Disconnected? || e.Unexpected?;
    }
    LogSays(log, events);
  }

  ghost predicate AllOk(log: seq<Entry>) {
    forall e :: e in log ==> e.ok
  }

  /** What a log is, entry by entry. */
  lemma LogSays(log: seq<Entry>, events: seq<Event>)
    requires LogOf(log, events)
    ensures AllOk(log) <==> log == [] || log[|log| - 1].ok
    ensures forall i :: 0 <= i < |log| ==> i < |events| && log[i].event == events[i]
    ensures forall i :: 0 <= i < |log| - 1 ==> log[i].ok && (log[i].event.ConnectRequest? || log[i].event.Established?)
  {
  }

  /** The listener and the channel go last.  The channel may not go while an identifier is left. */
  method CloseDown(process: Process, ghost log: seq<Entry>)
    requires process.Valid() && process.lib.orderly && Accounts(process.lib.live, log)
    modifies process.lib
    ensures process.Valid() && forall r :: r in process.lib.live <==> r.Conn? && Holds(log, r)
    ensures process.lib.orderly <==> process.lib.live == {}
    ensures process.lib.calls == old(process.lib.calls)
  {
    process.lib.Release(Listener);
    process.lib.Release(Channel);
    forall c, p | Conn(c, p) in process.lib.live
      ensures Conn(c, Id) in process.lib.live && Channel in Parents(Conn(c, Id))
    {
      assert Holds(log, Conn(c, p));
      assert Holds(log, Conn(c, Id));
    }
  }

  /** No request was handled, or a single one, whose client's disconnection ended the loop. */
  ghost predicate ServedOneOrNone(log: seq<Entry>) {
    || (forall c, ok :: Entry(ConnectRequest(c), ok) !in log)
    || (&& log != [] && log[|log| - 1].event.Disconnected? && log[|log| - 1].ok
        && forall c, ok :: Entry(ConnectRequest(c), ok) in log ==> c == log[|log| - 1].event.c)
  }

  /** The server leaves nothing behind just when it saw no request at all, or a single one, which it accepted, and
      served until its client disconnected. */
  lemma CleanExitIff(live: set<Resource>, log: seq<Entry>, events: seq<Event>)
    requires LogOf(log, events) && forall r :: r in live <==> r.Conn? && Holds(log, r)
    ensures live == {} <==> ServedOneOrNone(log)
  {
    forall c, ok | Entry(ConnectRequest(c), ok) in log && live == {}
      ensures log[|log| - 1] == Entry(Disconnected(c), true)
    {
      assert Conn(c, Id) !in live;
      var i :| 0 <= i < |log| && log[i] == Entry(Disconnected(c), true);
      assert Stops(log[i]);
    }
  }

  /** The four calls before the loop.  The first that fails ends the program, and nothing that was made is released. */
  method Listen(process: Process) returns (rc: int, ghost done: nat)
    requires process.Valid() && process.lib.live == {}
    modifies process.lib
    ensures process.Valid() && (rc == 0 || rc == 1) && process.lib.orderly == old(process.lib.orderly)
    ensures process.lib.released == old(process.lib.released)
    ensures rc == 0 ==> process.lib.live == {Channel, Listener}
    ensures rc == 0 ==> Called(old(process.lib.calls), process.lib.calls, 4, true)
    ensures rc == 1 ==> done < 4 && StoppedAt(old(process.lib.calls), process.lib.calls, done)
    ensures rc == 1 ==>
              process.lib.live == if done == 0 then {} else if done == 1 then {Channel} else {Channel, Listener}
  {
    ghost var start := process.lib.calls;
    hide Called, StoppedAt;
    rc, done := process.Open(Listener);
    if rc != 0 {
      return;
    }
    ghost var calls := process.lib.calls;
    done, rc := 2, 1;
    var ok := process.lib.Call();
    CalledNext(start, calls, 2, ok);
    if !ok {
      return;
    }
    done, calls := 3, process.lib.calls;
    ok := process.lib.Call();
    CalledNext(start, calls, 3, ok);
    rc := if ok then 0 else 1;
  }

  /** The server from its first call to its last.  A failure before the loop releases nothing that was made. */
  method ServerMain(process: Process, events: seq<Event>) returns (rc: int, ghost log: seq<Entry>, ghost done: nat)
    requires process.Valid() && process.lib.live == {} && process.lib.orderly && Obeys(events)
    modifies process.lib
    ensures process.Valid() && (rc == 0 || rc == 1)
    ensures rc == 1 ==> process.lib.released == old(process.lib.released)
    ensures rc == 1 ==> done < 4 && StoppedAt(old(process.lib.calls), process.lib.calls, done)
    ensures rc == 1 ==>
              process.lib.live == if done == 0 then {} else if done == 1 then {Channel} else {Channel, Listener}
    ensures rc == 0 ==> old(process.lib.calls) + Successes(4) <= process.lib.calls
    ensures rc == 0 ==> Clean(old(process.lib.calls), process.lib.calls, AllOk(log))
    ensures forall i :: 0 <= i < |log| ==> i < |events| && log[i].event == events[i]
    ensures forall i :: 0 <= i < |log| - 1 ==> log[i].ok && (log[i].event.ConnectRequest? || log[i].event.Established?)
    ensures rc == 0 && |log| < |events| ==>
              && log != []
              && var last := log[|log| - 1]; !last.ok || last.event.Disconnected? || last.event.Unexpected?
    ensures rc == 0 ==> Ended(log, events) && forall r :: r in process.lib.live <==> r.Conn? && Holds(log, r)
    ensures rc == 0 ==> (process.lib.orderly <==> process.lib.live == {})
    ensures rc == 0 ==> (process.lib.live == {} <==> ServedOneOrNone(log))
  {
    log := [];
    ghost var start := process.lib.calls;
    rc, done := Listen(process);
    if rc != 0 {
      return rc, log, done;
    }
    ghost var between := process.lib.calls;
    CalledClean(start, between, 4, true);
    assert between == start + Successes(4);
    hide Clean, Accounts, Holds, Obeys;
    log := Loop(process, events);
    CleanAfter(start, between, process.lib.calls, AllOk(log));
    CleanPrefix(between, process.lib.calls, AllOk(log));
    CloseDown(process, log);
    CleanExitIff(process.lib.live, log, events);
    rc := 0;
  }

  /** A second client whose request comes before the first one has gone is left behind with all its parts, however
      well everything goes. */
  lemma SecondClientLeaks(c: nat, d: nat) returns (events: seq<Event>, log: seq<Entry>)
    requires c != d
    ensures Obeys(events) && Ended(log, events) && forall e :: e in log ==> e.ok
    ensures !ServedOneOrNone(log) && forall p :: Holds(log, Conn(d, p))
  {
    events := [ConnectRequest(c), ConnectRequest(d), Established(c), Disconnected(c)];
    log := seq(4, i requires 0 <= i < 4 => Entry(events[i], true));
    assert events[..0] == [] && events[..1] == [ConnectRequest(c)];
    assert events[..2] == [ConnectRequest(c), ConnectRequest(d)];
    assert events[..3] == [ConnectRequest(c), ConnectRequest(d), Established(c)];
    assert log[1] == Entry(ConnectRequest(d), true) && Entry(ConnectRequest(d), true) in log;
    assert log[3] == Entry(Disconnected(c), true);
  }

  /** A setup that fails leaves the identifier behind. */
  lemma FailedSetupLeaks(c: nat) returns (events: seq<Event>, log: seq<Entry>)
    ensures Obeys(events) && Ended(log, events)
    ensures !ServedOneOrNone(log) && forall p :: Holds(log, Conn(c, p)) <==> p == Id
  {
    events, log := [ConnectRequest(c)], [Entry(ConnectRequest(c), false)];
    assert events[..0] == [];
    assert log[0] == Entry(ConnectRequest(c), false);
  }
}
