/** The event loop of the connection manager client, which has a single identifier of its own. */
module CmClient {

  import opened Ledger
  import opened Cm

  datatype Event =
    AddrResolved | RouteResolved | Established | Disconnected | Rejected | AddrError | RouteError | ConnectError |
    Unreachable | Unexpected

  datatype Entry = Entry(event: Event, ok: bool)

  /** The number of the only connection. */
  const OWN: nat := 0

  /** The connection manager reports each stage once, and the connection only once the client has asked for it, which
      it does on the resolved route. */
  ghost predicate Obeys(events: seq<Event>) {
    forall i :: 0 <= i < |events| ==> Follows(events[..i], events[i])
  }

  predicate Follows(before: seq<Event>, e: Event) {
    match e
    case AddrResolved => e !in before
    case RouteResolved => e !in before && AddrResolved in before
    case Established => RouteResolved in before && Disconnected !in before
    case Disconnected => RouteResolved in before && Disconnected !in before
    case _ => true
  }

  predicate Stops(e: Entry) {
    !e.ok || !(e.event.AddrResolved? || e.event.RouteResolved? || e.event.Established?)
  }

  ghost predicate LogOf(log: seq<Entry>, events: seq<Event>) {
    && |log| <= |events|
    && (forall i :: 0 <= i < |log| ==> log[i].event == events[i])
    && (forall i :: 0 <= i < |log| - 1 ==> !Stops(log[i]))
  }

  /** The connection was set up and not taken down. */
  predicate Open(log: seq<Entry>) {
    Entry(RouteResolved, true) in log && Entry(Disconnected, true) !in log
  }

  /** The channel and the identifier are live, and the rest of the connection while it is open. */
  ghost predicate Accounts(live: set<Resource>, log: seq<Entry>) {
    At(live, {Channel}, OWN, if Open(log) then 7 else 1)
  }

  /** The next event meets the connection in the right state. */
  lemma Ready(live: set<Resource>, log: seq<Entry>, events: seq<Event>)
    requires Obeys(events) && LogOf(log, events) && (log == [] || !Stops(log[|log| - 1])) && |log| < |events|
    requires Accounts(live, log)
    ensures Channel in live
    ensures events[|log|].RouteResolved? ==> At(live, live, OWN, 1) && !Open(log) && Entry(Disconnected, true) !in log
    ensures events[|log|].Established? || events[|log|].Disconnected? ==> At(live, live, OWN, 7)
  {
  }

  lemma Logged(before: set<Resource>, live: set<Resource>, log: seq<Entry>, entry: Entry)
    requires Accounts(before, log)
    requires
      match entry.event
      case RouteResolved =>
        !Open(log) && Entry(Disconnected, true) !in log && At(live, before, OWN, if entry.ok then 7 else 1)
      case Disconnected => entry.ok && At(live, before, OWN, 1)
      case _ => live == before
    ensures Accounts(live, log + [entry])
  {
  }

  /** One turn of the loop.  The handler returns 0, which is what gets logged, iff none of its calls fails. */
  method Handle(process: Process, e: Event, ghost log: seq<Entry>, ghost events: seq<Event>) returns (rc: int)
    requires process.Valid() && Accounts(process.lib.live, log) && Obeys(events) && LogOf(log, events)
    requires (log == [] || !Stops(log[|log| - 1])) && |log| < |events| && e == events[|log|]
    modifies process.lib
    ensures process.Valid() && process.lib.orderly == old(process.lib.orderly)
    ensures Accounts(process.lib.live, log + [Entry(e, rc == 0)])
    ensures Clean(old(process.lib.calls), process.lib.calls, rc == 0)
    ensures var n := if e.AddrResolved? then 1 else if e.RouteResolved? then 8 else if e.Established? then 3 else 0;
            Called(old(process.lib.calls), process.lib.calls, n, rc == 0)
  {
    ghost var before, calls := process.lib.live, process.lib.calls;
    Ready(before, log, events);
    NotCalled(calls);
    hide At, Accounts, Obeys, LogOf, Open, Called, Clean;
    if e.AddrResolved? {
      var ok := process.lib.Call();
      CalledNext(calls, calls, 0, ok);
      rc := if ok then 0 else -1;
    } else if e.RouteResolved? {
      rc := Connect(process);
    } else if e.Established? {
      rc := process.Transfer(OWN);
    } else if e.Disconnected? {
      process.TakeDown(OWN);
      rc := 0;
    } else {
      rc := 0;
    }
    ghost var n := if e.AddrResolved? then 1 else if e.RouteResolved? then 8 else if e.Established? then 3 else 0;
    CalledClean(calls, process.lib.calls, n, rc == 0);
    Logged(before, process.lib.live, log, Entry(e, rc == 0));
  }

  method Connect(process: Process) returns (rc: int)
    requires process.Valid() && Channel in process.lib.live && At(process.lib.live, process.lib.live, OWN, 1)
    modifies process.lib
    ensures process.Valid() && process.lib.orderly == old(process.lib.orderly)
    ensures At(process.lib.live, old(process.lib.live), OWN, if rc == 0 then 7 else 1)
    ensures Called(old(process.lib.calls), process.lib.calls, 8, rc == 0)
  {
    ghost var done;
    rc, done := process.SetUp(OWN);
  }

  lemma LogGrows(log: seq<Entry>, events: seq<Event>, ok: bool)
    requires LogOf(log, events) && |log| < |events| && (log == [] || !Stops(log[|log| - 1]))
    ensures LogOf(log + [Entry(events[|log|], ok)], events)
  {
  }

  ghost predicate Ended(log: seq<Entry>, events: seq<Event>) {
    LogOf(log, events) && (|log| == |events| || (log != [] && Stops(log[|log| - 1])))
  }

  /** The event loop.  Once events runs out, waiting for the next one fails. */
  method Loop(process: Process, events: seq<Event>) returns (ghost log: seq<Entry>)
    requires process.Valid() && process.lib.live == {Channel, Conn(OWN, Id)} && Obeys(events)
    modifies process.lib
    ensures process.Valid() && process.lib.orderly == old(process.lib.orderly)
    ensures Ended(log, events) && Accounts(process.lib.live, log)
    ensures Clean(old(process.lib.calls), process.lib.calls, AllOk(log))
    ensures forall i :: 0 <= i < |log| ==> i < |events| && log[i].event == events[i]
    ensures forall i :: 0 <= i < |log| - 1 ==> log[i].ok && log[i].event in {AddrResolved, RouteResolved, Established}
    ensures |log| < |events| ==>
              && log != []
              && var last := log[|log| - 1]; !last.ok || last.event !in {AddrResolved, RouteResolved, Established}
  {
    log := [];
    ghost var start := process.lib.calls;
    assert Accounts(process.lib.live, log);
    assert LogOf(log, events);
    assert Clean(start, start, true);
    hide Accounts, Obeys, LogOf, Open, Clean;
    var stop, i := false, 0;
    while !stop && i < |events|
      invariant i == |log| <= |events| && LogOf(log, events)
      invariant stop <==> log != [] && Stops(log[|log| - 1])
      invariant process.Valid() && process.lib.orderly == old(process.lib.orderly)
      invariant Accounts(process.lib.live, log)
      invariant Clean(start, process.lib.calls, log == [] || log[|log| - 1].ok)
    {
      var e := events[i];
      ghost var between := process.lib.calls;
      var rc := Handle(process, e, log, events);
      LogGrows(log, events, rc == 0);
      CleanAfter(start, between, process.lib.calls, rc == 0);
      log, i := log + [Entry(e, rc == 0)], i + 1;
      stop := rc != 0 || !(e.AddrResolved? || e.RouteResolved? || e.Established?);
    }
    LogSays(log, events);
  }

  ghost predicate AllOk(log: seq<Entry>) {
    forall e :: e in log ==> e.ok
  }

  /** What a log is, entry by entry. */
  lemma LogSays(log: seq<Entry>, events: seq<Event>)
    requires LogOf(log, events)
    ensures AllOk(log) <==> log == [] || log[|log| - 1].ok
    ensures forall i :: 0 <= i < |log| ==> i < |events| && log[i].event == events[i]
    ensures forall i :: 0 <= i < |log| - 1 ==> log[i].ok && log[i].event in {AddrResolved, RouteResolved, Established}
  {
  }

  /** Everything of the connection but its identifier, or nothing at all. */
  ghost predicate Leftover(live: set<Resource>, open: bool) {
    forall r :: r in live <==> open && r.Conn? && r.c == OWN && r.part != Id
  }

  lemma AtExit(live: set<Resource>, open: bool)
    requires At(live, {Channel}, OWN, if open then 7 else 1)
    ensures Conn(OWN, Id) in live && Channel in live - {Conn(OWN, Id)}
    ensures (forall d :: d in live - {Conn(OWN, Id)} ==> Conn(OWN, Id) !in Parents(d)) <==> !open
    ensures forall d :: d in live - {Conn(OWN, Id)} - {Channel} ==> Channel !in Parents(d)
    ensures Leftover(live - {Conn(OWN, Id)} - {Channel}, open)
  {
    assert open ==> Conn(OWN, Qp) in live - {Conn(OWN, Id)} && Conn(OWN, Id) in Parents(Conn(OWN, Qp));
  }

  /** The identifier and the channel go last.  The identifier may not go while its queue pair is left. */
  method CloseDown(process: Process, ghost log: seq<Entry>)
    requires process.Valid() && process.lib.orderly && Accounts(process.lib.live, log)
    modifies process.lib
    ensures process.Valid() && Leftover(process.lib.live, Open(log))
    ensures process.lib.orderly <==> !Open(log)
    ensures process.lib.calls == old(process.lib.calls)
  {
    AtExit(process.lib.live, Open(log));
    hide Open, At, Leftover, Parents;
    process.lib.Release(Conn(OWN, Id));
    process.lib.Release(Channel);
  }

  /** The setup succeeded, and the loop ended on anything but a disconnection. */
  ghost predicate LeftConnected(log: seq<Entry>) {
    Entry(RouteResolved, true) in log && log[|log| - 1] != Entry(Disconnected, true)
  }

  /** What is live when the client has ended: its connection, without the identifier, iff it was left connected. */
  lemma LeakIff(live: set<Resource>, log: seq<Entry>, events: seq<Event>)
    requires Ended(log, events) && Leftover(live, Open(log))
    ensures live != {} <==> LeftConnected(log)
    ensures LeftConnected(log) ==> forall p :: p != Id ==> Conn(OWN, p) in live
  {
    if Entry(Disconnected, true) in log {
      var i :| 0 <= i < |log| && log[i] == Entry(Disconnected, true);
      assert Stops(log[i]);
    }
    assert Conn(OWN, Qp) in live <==> Open(log);
  }

  /** The three calls before the loop.  The first that fails ends the program, and nothing that was made is released. */
  method Resolve(process: Process) returns (rc: int, ghost done: nat)
    requires process.Valid() && process.lib.live == {}
    modifies process.lib
    ensures process.Valid() && (rc == 0 || rc == 1) && process.lib.orderly == old(process.lib.orderly)
    ensures process.lib.released == old(process.lib.released)
    ensures rc == 0 ==> process.lib.live == {Channel, Conn(OWN, Id)}
    ensures rc == 0 ==> Called(old(process.lib.calls), process.lib.calls, 3, true)
    ensures rc == 1 ==> done < 3 && StoppedAt(old(process.lib.calls), process.lib.calls, done)
    ensures rc == 1 ==>
              process.lib.live == if done == 0 then {} else if done == 1 then {Channel} else {Channel, Conn(OWN, Id)}
  {
    ghost var start := process.lib.calls;
    rc, done := process.Open(Conn(OWN, Id));
    if rc != 0 {
      return;
    }
    hide Called, StoppedAt;
    ghost var calls := process.lib.calls;
    done := 2;
    var ok := process.lib.Call();
    CalledNext(start, calls, 2, ok);
    rc := if ok then 0 else 1;
  }

  /** The client from its first call to its last. */
  method ClientMain(process: Process, events: seq<Event>) returns (rc: int, ghost log: seq<Entry>, ghost done: nat)
    requires process.Valid() && process.lib.live == {} && process.lib.orderly && Obeys(events)
    modifies process.lib
    ensures process.Valid() && (rc == 0 || rc == 1)
    ensures rc == 1 ==> process.lib.released == old(process.lib.released)
    ensures rc == 1 ==> done < 3 && StoppedAt(old(process.lib.calls), process.lib.calls, done)
    ensures rc == 1 ==>
              process.lib.live == if done == 0 then {} else if done == 1 then {Channel} else {Channel, Conn(OWN, Id)}
    ensures rc == 0 ==> old(process.lib.calls) + Successes(3) <= process.lib.calls
    ensures rc == 0 ==> Clean(old(process.lib.calls), process.lib.calls, AllOk(log))
    ensures forall i :: 0 <= i < |log| ==> i < |events| && log[i].event == events[i]
    ensures forall i :: 0 <= i < |log| - 1 ==> log[i].ok && log[i].event in {AddrResolved, RouteResolved, Established}
    ensures rc == 0 && |log| < |events| ==>
              && log != []
              && var last := log[|log| - 1]; !last.ok || last.event !in {AddrResolved, RouteResolved, Established}
    ensures rc == 0 ==> Ended(log, events)
    ensures rc == 0 ==> Leftover(process.lib.live, Open(log))
    ensures rc == 0 ==> (process.lib.live != {} <==> LeftConnected(log))
    ensures rc == 0 ==> (process.lib.orderly <==> process.lib.live == {})
  {
    log := [];
    ghost var start := process.lib.calls;
    rc, done := Resolve(process);
    if rc != 0 {
      return rc, log, done;
    }
    ghost var between := process.lib.calls;
    CalledClean(start, between, 3, true);
    assert between == start + Successes(3);
    hide Clean, Accounts, Open, Obeys;
    log := Loop(process, events);
    CleanAfter(start, between, process.lib.calls, AllOk(log));
    CleanPrefix(between, process.lib.calls, AllOk(log));
    CloseDown(process, log);
    LeakIff(process.lib.live, log, events);
    rc := 0;
  }

  /** A client that is rejected leaves its connection behind. */
  lemma RejectionLeaks() returns (events: seq<Event>, log: seq<Entry>)
    ensures Obeys(events) && Ended(log, events) && LeftConnected(log) && forall e :: e in log ==> e.ok
  {
    events := [AddrResolved, RouteResolved, Rejected];
    log := [Entry(AddrResolved, true), Entry(RouteResolved, true), Entry(Rejected, true)];
    assert events[..0] == [] && events[..1] == [AddrResolved];
    assert log[1] == Entry(RouteResolved, true);
  }
}
