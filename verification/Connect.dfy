/** Bringing up a pair of reliable connected queue pairs: each side publishes its queue pair number and starting
    packet sequence number, reads the peer's, moves its queue pair through INIT, RTR and RTS with them, and
    passes a one-byte barrier.  Whole records travel here; that reads and writes deliver them whole whatever the
    fragmentation is shown in module Exchange. */
module Connect {

  datatype QpState = Reset | Init | Rtr | Rts

  datatype Attributes = Attributes(state: QpState, destQpNum: nat, rqPsn: nat, sqPsn: nat)

  datatype Change = ToInit | ToRtr(destQpNum: nat, rqPsn: nat) | ToRts(sqPsn: nat)

  /** Attributes and every state entered so far. */
  datatype Endpoint = Endpoint(attr: Attributes, path: seq<QpState>)

  const NEW_ENDPOINT: Endpoint := Endpoint(Attributes(Reset, 0, 0, 0), [Reset])

  const EINVAL := 22

  /** Whether ibv_modify_qp accepts a change (section 10.3.1 of the InfiniBand Architecture Specification,
      Volume 1). */
  predicate Allowed(state: QpState, change: Change) {
    match change
    case ToInit => state == Reset || state == Init
    case ToRtr(_, _) => state == Init
    case ToRts(_) => state == Rtr || state == Rts
  }

  function Applied(attr: Attributes, change: Change): Attributes {
    match change
    case ToInit => attr.(state := Init)
    case ToRtr(dest, psn) => attr.(state := Rtr, destQpNum := dest, rqPsn := psn)
    case ToRts(psn) => attr.(state := Rts, sqPsn := psn)
  }

  /** ibv_modify_qp: the queue pair afterwards and the return code. */
  function Modify(e: Endpoint, change: Change): (Endpoint, int) {
    if Allowed(e.attr.state, change) then
      var attr := Applied(e.attr, change);
      (Endpoint(attr, e.path + [attr.state]), 0)
    else (e, EINVAL)
  }

  /** Any series of attempts to change a new queue pair, whatever their results. */
  function Attempts(changes: seq<Change>): Endpoint {
    if changes == [] then NEW_ENDPOINT else Modify(Attempts(changes[..|changes| - 1]), changes[|changes| - 1]).0
  }

  /** n times the same state. */
  function Times(state: QpState, n: nat): seq<QpState> {
    seq(n, (_: nat) => state)
  }

  /** The states on the way to RTS: INIT at least once, RTR exactly once, RTS at least once, in this order. */
  ghost predicate OnlyWay(path: seq<QpState>, state: QpState) {
    match state
    case Reset => path == [Reset]
    case Init => exists i: nat :: i > 0 && path == [Reset] + Times(Init, i)
    case Rtr => exists i: nat :: i > 0 && path == [Reset] + Times(Init, i) + [Rtr]
    case Rts => exists i: nat, k: nat :: i > 0 && k > 0 && path == [Reset] + Times(Init, i) + [Rtr] + Times(Rts, k)
  }

  lemma OneMore(state: QpState, n: nat)
    ensures Times(state, n) + [state] == Times(state, n + 1)
    ensures Times(state, 1) == [state]
  {
  }

  lemma ModifyKeepsWay(e: Endpoint, change: Change)
    requires OnlyWay(e.path, e.attr.state)
    ensures var e' := Modify(e, change).0; OnlyWay(e'.path, e'.attr.state)
  {
    if Allowed(e.attr.state, change) {
      var path, next := e.path, Applied(e.attr, change).state;
      if change.ToInit? {
        var i: nat :| path == [Reset] + Times(Init, i);
        OneMore(Init, i);
        assert path + [next] == [Reset] + Times(Init, i + 1);
      } else if change.ToRts? && e.attr.state == Rtr {
        var i: nat :| i > 0 && path == [Reset] + Times(Init, i) + [Rtr];
        OneMore(Rts, 0);
        assert path + [next] == [Reset] + Times(Init, i) + [Rtr] + Times(Rts, 1);
      } else if change.ToRts? {
        var i: nat, k: nat :| i > 0 && k > 0 && path == [Reset] + Times(Init, i) + [Rtr] + Times(Rts, k);
        OneMore(Rts, k);
        assert path + [next] == [Reset] + Times(Init, i) + [Rtr] + Times(Rts, k + 1);
      }
    }
  }

  /** Whatever is attempted in whatever order, a queue pair that is in RTS has come through INIT and RTR. */
  lemma {:induction false} RtsThroughRtr(changes: seq<Change>)
    ensures OnlyWay(Attempts(changes).path, Attempts(changes).attr.state)
  {
    if changes != [] {
      RtsThroughRtr(changes[..|changes| - 1]);
      ModifyKeepsWay(Attempts(changes[..|changes| - 1]), changes[|changes| - 1]);
    }
  }

  lemma NoAttempts()
    ensures Attempts([]) == NEW_ENDPOINT
  {
  }

  lemma AttemptNext(changes: seq<Change>, change: Change)
    ensures Attempts(changes + [change]) == Modify(Attempts(changes), change).0
  {
    assert (changes + [change])[..|changes|] == changes;
  }

  lemma {:induction false} InitReached(i: nat) returns (changes: seq<Change>)
    requires i > 0
    ensures Attempts(changes).path == [Reset] + Times(Init, i) && Attempts(changes).attr.state == Init
  {
    NoAttempts();
    hide Attempts;
    if i == 1 {
      changes := [];
    } else {
      changes := InitReached(i - 1);
    }
    AttemptNext(changes, ToInit);
    OneMore(Init, i - 1);
    changes := changes + [ToInit];
  }

  /** And every such way can be gone. */
  lemma {:induction false} EveryWayGone(i: nat, k: nat) returns (changes: seq<Change>)
    requires i > 0
    ensures Attempts(changes).path == [Reset] + Times(Init, i) + [Rtr] + Times(Rts, k)
    ensures Attempts(changes).attr.state == if k == 0 then Rtr else Rts
  {
    hide Attempts;
    if k == 0 {
      changes := InitReached(i);
      AttemptNext(changes, ToRtr(0, 0));
      changes := changes + [ToRtr(0, 0)];
    } else {
      changes := EveryWayGone(i, k - 1);
      AttemptNext(changes, ToRts(0));
      OneMore(Rts, k - 1);
      changes := changes + [ToRts(0)];
    }
  }

  /** What a side publishes: the fields of the queue pair record that the peer uses. */
  datatype Info = Info(qpNum: nat, psn: nat)

  const PSN_LIMIT: nat := 0x1000000

  /** get_local_info: the sequence number keeps 24 bits of a random number. */
  function LocalInfo(qpNum: nat, random: nat): (info: Info)
    ensures info.qpNum == qpNum && info.psn < 0x1000000 && (random - info.psn) % 0x1000000 == 0
  {
    Info(qpNum, random % PSN_LIMIT)
  }

  /** A queue pair with the transitions of the example. */
  class QueuePair {
    const qpNum: nat
    var endpoint: Endpoint

    constructor (qpNum: nat)
      ensures this.qpNum == qpNum && endpoint == NEW_ENDPOINT
    {
      this.qpNum, endpoint := qpNum, NEW_ENDPOINT;
    }

    method ModifyQp(change: Change) returns (rc: int)
      modifies this
      ensures (endpoint, rc) == Modify(old(endpoint), change)
    {
      var (e, code) := Modify(endpoint, change);
      endpoint, rc := e, code;
    }

    /** The three transitions in the order of the program, each stopping at the first failure. */
    method BringUp(local: Info, remote: Info) returns (rc: int)
      modifies this
      ensures rc == 0 <==> old(endpoint).attr.state == Reset || old(endpoint).attr.state == Init
      ensures rc == 0 ==> endpoint.attr == Attributes(Rts, remote.qpNum, remote.psn, local.psn)
      ensures rc == 0 ==> endpoint.path == old(endpoint).path + [Init, Rtr, Rts]
      ensures rc != 0 ==> endpoint == old(endpoint)
    {
      rc := ModifyQp(ToInit);
      if rc != 0 {
        return;
      }
      rc := ModifyQp(ToRtr(remote.qpNum, remote.psn));
      if rc != 0 {
        return;
      }
      rc := ModifyQp(ToRts(local.psn));
    }
  }

  // ---------- two processes ----------

  /** Where a process is; Exited after a failed transition. */
  datatype Pc = WriteInfo | ReadInfo | AtInit | AtRtr | AtRts | WriteSync | ReadSync | Connected | Exited

  datatype Message = Record(info: Info) | Sync

  /** The two flags tell whether the write and the read of the barrier byte succeeded; the program ignores both. */
  datatype Process = Process(pc: Pc, local: Info, remote: Info, qp: Endpoint, wrote: bool, synced: bool)

  /** Both processes and the messages under way from a to b and from b to a. */
  datatype State = State(a: Process, b: Process, ab: seq<Message>, ba: seq<Message>)

  /** A transition and the check of its return code. */
  function Transition(p: Process, change: Change, next: Pc): Process {
    var (qp, rc) := Modify(p.qp, change);
    p.(qp := qp, pc := if rc == 0 then next else Exited)
  }

  /** What may go wrong with the barrier: its write may fail, its read may fail at any time, and a read that has nothing
      to read, instead of waiting for as long as it takes, is sure to fail. */
  datatype Faults = Faults(write: bool, read: bool, empty: bool)

  /** One step of a process, with the messages from it and to it before and after. */
  ghost predicate Step(faults: Faults, p: Process, p': Process, out: seq<Message>, out': seq<Message>,
                       inn: seq<Message>, inn': seq<Message>)
  {
    match p.pc
    case WriteInfo => p' == p.(pc := ReadInfo) && out' == out + [Record(p.local)] && inn' == inn
    case ReadInfo =>
      && inn != [] && inn' == inn[1..] && out' == out
      && (match inn[0]
          case Record(info) => p' == p.(pc := AtInit, remote := info)
          case Sync => p' == p.(pc := Exited))
    case AtInit => p' == Transition(p, ToInit, AtRtr) && out' == out && inn' == inn
    case AtRtr => p' == Transition(p, ToRtr(p.remote.qpNum, p.remote.psn), AtRts) && out' == out && inn' == inn
    case AtRts => p' == Transition(p, ToRts(p.local.psn), WriteSync) && out' == out && inn' == inn
    case WriteSync =>
      && inn' == inn
      && (|| (p' == p.(pc := ReadSync, wrote := true) && out' == out + [Sync])
          || (faults.write && p' == p.(pc := ReadSync) && out' == out))
    case ReadSync =>
      && out' == out
      && (|| (inn != [] && inn' == inn[1..] && p' == p.(pc := Connected, synced := true))
          || ((faults.read || (faults.empty && inn == [])) && inn' == inn && p' == p.(pc := Connected)))
    case Connected => false
    case Exited => false
  }

  ghost predicate Next(faults: Faults, s: State, s': State) {
    || (Step(faults, s.a, s'.a, s.ab, s'.ab, s.ba, s'.ba) && s'.b == s.b)
    || (Step(faults, s.b, s'.b, s.ba, s'.ba, s.ab, s'.ab) && s'.a == s.a)
  }

  /** A process that has obtained its local information and created its queue pair. */
  ghost predicate Initial(p: Process) {
    && p.pc == WriteInfo && p.qp == NEW_ENDPOINT && !p.wrote && !p.synced
    && exists random: nat :: p.local == LocalInfo(p.local.qpNum, random)
  }

  ghost predicate InitialState(s: State) {
    Initial(s.a) && Initial(s.b) && s.ab == s.ba == []
  }

  ghost predicate Run(faults: Faults, tr: seq<State>) {
    && tr != [] && InitialState(tr[0])
    && forall k :: 0 <= k < |tr| - 1 ==> Next(faults, tr[k], tr[k + 1])
  }

  function Rank(pc: Pc): nat {
    match pc
    case WriteInfo => 0 case ReadInfo => 1 case AtInit => 2 case AtRtr => 3 case AtRts => 4
    case WriteSync => 5 case ReadSync => 6 case Connected => 7 case Exited => 8
  }

  /** Everything a process has written so far. */
  function Written(p: Process): seq<Message> {
    (if Rank(p.pc) >= 1 then [Record(p.local)] else []) + if p.wrote then [Sync] else []
  }

  function Taken(p: Process): nat {
    (if Rank(p.pc) >= 2 then 1 else 0) + if p.synced then 1 else 0
  }

  ghost predicate ProcessOk(faults: Faults, p: Process) {
    && p.pc != Exited && p.local.psn < PSN_LIMIT
    && (p.wrote ==> Rank(p.pc) >= 6) && (p.synced ==> Rank(p.pc) >= 7)
    && (!faults.write ==> (p.wrote <==> Rank(p.pc) >= 6))
    && (!faults.read && !faults.empty ==> (p.synced <==> Rank(p.pc) >= 7))
    && (Rank(p.pc) <= 2 ==> p.qp == NEW_ENDPOINT)
    && (p.pc == AtRtr ==> p.qp.attr.state == Init && p.qp.path == [Reset, Init])
    && (p.pc == AtRts ==> p.qp.attr.state == Rtr && p.qp.path == [Reset, Init, Rtr])
    && (Rank(p.pc) >= 5 ==>
          p.qp.attr.state == Rts && p.qp.path == [Reset, Init, Rtr, Rts] && p.qp.attr.sqPsn == p.local.psn)
    && (Rank(p.pc) >= 4 ==> p.qp.attr.destQpNum == p.remote.qpNum && p.qp.attr.rqPsn == p.remote.psn)
  }

  /** What p has written and q has not taken is under way, and q's remote information is p's. */
  ghost predicate DirectionOk(p: Process, q: Process, chan: seq<Message>) {
    && Taken(q) <= |Written(p)| && chan == Written(p)[Taken(q)..]
    && (Rank(q.pc) >= 2 ==> q.remote == p.local)
  }

  ghost predicate Inv(faults: Faults, s: State) {
    && ProcessOk(faults, s.a) && ProcessOk(faults, s.b)
    && DirectionOk(s.a, s.b, s.ab) && DirectionOk(s.b, s.a, s.ba)
  }

  lemma ModifyInv(faults: Faults, p: Process, p': Process, out: seq<Message>, out': seq<Message>, inn: seq<Message>,
                  inn': seq<Message>, q: Process)
    requires Step(faults, p, p', out, out', inn, inn') && ProcessOk(faults, p) && ProcessOk(faults, q)
    requires DirectionOk(p, q, out) && DirectionOk(q, p, inn) && 2 <= Rank(p.pc) <= 4
    ensures ProcessOk(faults, p') && DirectionOk(p', q, out') && DirectionOk(q, p', inn')
    ensures p'.local == p.local && Rank(p'.pc) == Rank(p.pc) + 1
  {
  }

  lemma RecordInv(faults: Faults, p: Process, p': Process, out: seq<Message>, out': seq<Message>, inn: seq<Message>,
                  inn': seq<Message>, q: Process)
    requires Step(faults, p, p', out, out', inn, inn') && ProcessOk(faults, p) && ProcessOk(faults, q)
    requires DirectionOk(p, q, out) && DirectionOk(q, p, inn) && Rank(p.pc) <= 1
    ensures ProcessOk(faults, p') && DirectionOk(p', q, out') && DirectionOk(q, p', inn')
    ensures p'.local == p.local && Rank(p'.pc) == Rank(p.pc) + 1
  {
  }

  lemma BarrierInv(faults: Faults, p: Process, p': Process, out: seq<Message>, out': seq<Message>, inn: seq<Message>,
                   inn': seq<Message>, q: Process)
    requires Step(faults, p, p', out, out', inn, inn') && ProcessOk(faults, p) && ProcessOk(faults, q)
    requires DirectionOk(p, q, out) && DirectionOk(q, p, inn) && Rank(p.pc) >= 5
    ensures ProcessOk(faults, p') && DirectionOk(p', q, out') && DirectionOk(q, p', inn')
    ensures p'.local == p.local && Rank(p'.pc) == Rank(p.pc) + 1
  {
  }

  lemma StepInv(faults: Faults, p: Process, p': Process, out: seq<Message>, out': seq<Message>, inn: seq<Message>,
                inn': seq<Message>, q: Process)
    requires Step(faults, p, p', out, out', inn, inn') && ProcessOk(faults, p) && ProcessOk(faults, q)
    requires DirectionOk(p, q, out) && DirectionOk(q, p, inn)
    ensures ProcessOk(faults, p') && DirectionOk(p', q, out') && DirectionOk(q, p', inn')
    ensures p'.local == p.local && Rank(p'.pc) == Rank(p.pc) + 1
  {
    hide Step, ProcessOk, DirectionOk;
    if Rank(p.pc) <= 1 {
      RecordInv(faults, p, p', out, out', inn, inn', q);
    } else if Rank(p.pc) <= 4 {
      ModifyInv(faults, p, p', out, out', inn, inn', q);
    } else {
      BarrierInv(faults, p, p', out, out', inn, inn', q);
    }
  }

  lemma NextInv(faults: Faults, s: State, s': State)
    requires Inv(faults, s) && Next(faults, s, s')
    ensures Inv(faults, s') && s'.a.local == s.a.local && s'.b.local == s.b.local
    ensures Rank(s'.a.pc) + Rank(s'.b.pc) == Rank(s.a.pc) + Rank(s.b.pc) + 1
  {
    hide Step, ProcessOk, DirectionOk;
    if Step(faults, s.a, s'.a, s.ab, s'.ab, s.ba, s'.ba) && s'.b == s.b {
      StepInv(faults, s.a, s'.a, s.ab, s'.ab, s.ba, s'.ba, s.b);
    } else {
      StepInv(faults, s.b, s'.b, s.ba, s'.ba, s.ab, s'.ab, s.a);
    }
  }

  lemma InitialInv(faults: Faults, s: State)
    requires InitialState(s)
    ensures Inv(faults, s) && Rank(s.a.pc) + Rank(s.b.pc) == 0
  {
  }

  lemma {:induction false} RunInv(faults: Faults, tr: seq<State>, k: nat)
    requires Run(faults, tr) && k < |tr|
    ensures Inv(faults, tr[k]) && Rank(tr[k].a.pc) + Rank(tr[k].b.pc) == k
    ensures tr[k].a.local == tr[0].a.local && tr[k].b.local == tr[0].b.local
  {
    hide Next, Inv, InitialState;
    if k == 0 {
      InitialInv(faults, tr[0]);
    } else {
      RunInv(faults, tr, k - 1);
      NextInv(faults, tr[k - 1], tr[k]);
    }
  }

  /** The queue pair of p is ready to exchange messages with that of q. */
  ghost predicate ReadyFor(p: Process, q: Process) {
    && p.qp.attr == Attributes(Rts, q.local.qpNum, q.local.psn, p.local.psn)
    && p.qp.path == [Reset, Init, Rtr, Rts] && p.local.psn < PSN_LIMIT
  }

  /** Connection crossing: once both sides have left the barrier, both queue pairs are in RTS, reached through INIT and
      RTR only, each with the number of the other as destination and with the sequence number it expects equal to the
      one the other sends from.  A side whose read of the barrier succeeded need not wait for the other. */
  lemma Crossing(faults: Faults, tr: seq<State>, k: nat)
    requires Run(faults, tr) && k < |tr|
    requires (tr[k].a.pc == tr[k].b.pc == Connected) || tr[k].a.synced || tr[k].b.synced
    ensures ReadyFor(tr[k].a, tr[k].b) && ReadyFor(tr[k].b, tr[k].a)
  {
    RunInv(faults, tr, k);
  }

  /** As long as no read fails, leaving the barrier is reading its byte. */
  lemma LeavingIsReading(faults: Faults, tr: seq<State>, k: nat)
    requires Run(faults, tr) && k < |tr| && !faults.read && !faults.empty
    ensures tr[k].a.synced <==> tr[k].a.pc == Connected
    ensures tr[k].b.synced <==> tr[k].b.pc == Connected
  {
    RunInv(faults, tr, k);
  }

  predicate BothPassed(s: State) {
    s.a.pc == s.b.pc == Connected
  }

  /** No run takes more than 14 steps, and it takes them all iff both sides get past the barrier. */
  lemma BarrierPassed(faults: Faults, tr: seq<State>)
    requires Run(faults, tr)
    ensures |tr| <= 15 && (BothPassed(tr[|tr| - 1]) <==> |tr| == 15)
  {
    RunInv(faults, tr, |tr| - 1);
  }

  // ---------- who gets through ----------

  /** No step is sure to be taken: a fault that may happen need not.  A read that has nothing to read and does not fail
      for that waits. */
  ghost predicate Blocked(faults: Faults, s: State) {
    !exists s' :: Next(Faults(false, false, faults.empty), s, s')
  }

  predicate MayMove(faults: Faults, p: Process, inn: seq<Message>) {
    && p.pc != Connected && p.pc != Exited
    && (p.pc == ReadInfo || (p.pc == ReadSync && !faults.empty) ==> inn != [])
  }

  lemma Move(faults: Faults, p: Process, out: seq<Message>, inn: seq<Message>)
    returns (p': Process, out': seq<Message>, inn': seq<Message>)
    requires MayMove(faults, p, inn)
    ensures Step(Faults(false, false, faults.empty), p, p', out, out', inn, inn')
  {
    p', out', inn' := p, out, inn;
    match p.pc
    case WriteInfo => p', out' := p.(pc := ReadInfo), out + [Record(p.local)];
    case ReadInfo =>
      inn' := inn[1..];
      p' := match inn[0] case Record(info) => p.(pc := AtInit, remote := info) case Sync => p.(pc := Exited);
    case AtInit => p' := Transition(p, ToInit, AtRtr);
    case AtRtr => p' := Transition(p, ToRtr(p.remote.qpNum, p.remote.psn), AtRts);
    case AtRts => p' := Transition(p, ToRts(p.local.psn), WriteSync);
    case WriteSync => p', out' := p.(pc := ReadSync, wrote := true), out + [Sync];
    case ReadSync =>
      if inn != [] {
        p', inn' := p.(pc := Connected, synced := true), inn[1..];
      } else {
        p' := p.(pc := Connected);
      }
  }

  /** One side can move unless both are through, or one waits for a byte that the other has failed to write. */
  lemma NotBlocked(faults: Faults, s: State)
    requires Inv(faults, s) && !BothPassed(s) && (!faults.write || faults.empty)
    ensures !Blocked(faults, s)
  {
    hide Step;
    if MayMove(faults, s.a, s.ba) {
      var a', ab', ba' := Move(faults, s.a, s.ab, s.ba);
      assert Next(Faults(false, false, faults.empty), s, State(a', s.b, ab', ba'));
    } else {
      var b', ba', ab' := Move(faults, s.b, s.ba, s.ab);
      assert Next(Faults(false, false, faults.empty), s, State(s.a, b', ab', ba'));
    }
  }

  /** Every run is sure to get both sides past the barrier iff the write of the barrier cannot fail, or a read that has
      nothing to read fails. */
  lemma GetsThroughIff(faults: Faults)
    ensures (forall tr :: Run(faults, tr) && Blocked(faults, tr[|tr| - 1]) ==> BothPassed(tr[|tr| - 1]))
            <==> !faults.write || faults.empty
  {
    hide Inv, Next, Blocked;
    if !faults.write || faults.empty {
      forall tr | Run(faults, tr) && Blocked(faults, tr[|tr| - 1])
        ensures BothPassed(tr[|tr| - 1])
      {
        RunInv(faults, tr, |tr| - 1);
        if !BothPassed(tr[|tr| - 1]) {
          NotBlocked(faults, tr[|tr| - 1]);
        }
      }
    } else {
      var tr := WaitsForEver(Info(0, 0), Info(1, 0));
      MoreFaults(Faults(true, false, false), faults, tr);
    }
  }

  lemma MoreFaults(f: Faults, g: Faults, tr: seq<State>)
    requires Run(f, tr) && (f.write ==> g.write) && (f.read ==> g.read) && (f.empty ==> g.empty || g.read)
    ensures Run(g, tr)
  {
    forall k | 0 <= k < |tr| - 1
      ensures Next(g, tr[k], tr[k + 1])
    {
      assert Next(f, tr[k], tr[k + 1]);
    }
  }

  // ---------- who is left alone ----------

  lemma Extend(faults: Faults, tr: seq<State>, s': State) returns (longer: seq<State>)
    requires tr != [] && Run(faults, tr) && Next(faults, tr[|tr| - 1], s')
    ensures longer != [] && Run(faults, longer) && longer[|longer| - 1] == s'
  {
    longer := tr + [s'];
  }

  /** Both records are written and a has read that of b. */
  lemma OneRecordRead(faults: Faults, x: Info, y: Info) returns (tr: seq<State>)
    requires x.psn < PSN_LIMIT && y.psn < PSN_LIMIT
    ensures tr != [] && Run(faults, tr)
    ensures tr[|tr| - 1] ==
            State(Process(AtInit, x, y, NEW_ENDPOINT, false, false),
                  Process(ReadInfo, y, y, NEW_ENDPOINT, false, false), [Record(x)], [])
  {
    var a := Process(WriteInfo, x, x, NEW_ENDPOINT, false, false);
    var b := Process(WriteInfo, y, y, NEW_ENDPOINT, false, false);
    assert x == LocalInfo(x.qpNum, x.psn) && y == LocalInfo(y.qpNum, y.psn);
    tr := [State(a, b, [], [])];
    hide Run;
    b := b.(pc := ReadInfo);
    tr := Extend(faults, tr, State(a, b, [], [Record(y)]));
    a := a.(pc := ReadInfo);
    tr := Extend(faults, tr, State(a, b, [Record(x)], [Record(y)]));
    a := a.(pc := AtInit, remote := y);
    tr := Extend(faults, tr, State(a, b, [Record(x)], []));
  }

  /** Then a brings its queue pair up, while b does nothing. */
  lemma OneAtBarrier(faults: Faults, x: Info, y: Info) returns (tr: seq<State>)
    requires x.psn < PSN_LIMIT && y.psn < PSN_LIMIT
    ensures tr != [] && Run(faults, tr)
    ensures
      var s := tr[|tr| - 1];
      && s.a.pc == WriteSync && s.a.local == x && !s.a.wrote && !s.a.synced
      && s.b == Process(ReadInfo, y, y, NEW_ENDPOINT, false, false) && s.ab == [Record(x)] && s.ba == []
  {
    tr := OneRecordRead(faults, x, y);
    hide Run;
    var a, b := tr[|tr| - 1].a, tr[|tr| - 1].b;
    a := Transition(a, ToInit, AtRtr);
    tr := Extend(faults, tr, State(a, b, [Record(x)], []));
    a := Transition(a, ToRtr(y.qpNum, y.psn), AtRts);
    tr := Extend(faults, tr, State(a, b, [Record(x)], []));
    a := Transition(a, ToRts(x.psn), WriteSync);
    tr := Extend(faults, tr, State(a, b, [Record(x)], []));
  }

  /** The program does not look at the result of its read.  If it fails, one side can leave the barrier while the queue
      pair of the other is still in RESET. */
  lemma LeftAlone(faults: Faults, x: Info, y: Info) returns (tr: seq<State>)
    requires x.psn < PSN_LIMIT && y.psn < PSN_LIMIT && (faults.read || faults.empty)
    ensures tr != [] && Run(faults, tr)
    ensures tr[|tr| - 1].a.pc == Connected && tr[|tr| - 1].b.qp.attr.state == Reset
  {
    tr := OneAtBarrier(faults, x, y);
    hide Run;
    var a, b := tr[|tr| - 1].a, tr[|tr| - 1].b;
    a := a.(pc := ReadSync, wrote := true);
    tr := Extend(faults, tr, State(a, b, [Record(x), Sync], []));
    a := a.(pc := Connected);
    tr := Extend(faults, tr, State(a, b, [Record(x), Sync], []));
  }

  /** Once a side has left the barrier both queue pairs are ready. */
  ghost predicate SafeToLeave(s: State) {
    s.a.pc == Connected || s.b.pc == Connected ==> ReadyFor(s.a, s.b) && ReadyFor(s.b, s.a)
  }

  /** Leaving the barrier tells a side that both queue pairs are ready, in all runs, iff its read cannot fail. */
  lemma LeaverIsSafeIff(faults: Faults)
    ensures (forall tr: seq<State> :: Run(faults, tr) ==> SafeToLeave(tr[|tr| - 1])) <==> !faults.read && !faults.empty
  {
    hide Next, ReadyFor;
    if faults.read || faults.empty {
      var tr := LeftAlone(faults, Info(0, 0), Info(1, 0));
      NotReady(tr[|tr| - 1].b, tr[|tr| - 1].a);
    } else {
      forall tr: seq<State> | Run(faults, tr)
        ensures SafeToLeave(tr[|tr| - 1])
      {
        LeavingIsReading(faults, tr, |tr| - 1);
        var s := tr[|tr| - 1];
        if s.a.pc == Connected || s.b.pc == Connected {
          Crossing(faults, tr, |tr| - 1);
        }
      }
    }
  }

  lemma NotReady(p: Process, q: Process)
    requires p.qp.attr.state == Reset
    ensures !ReadyFor(p, q)
  {
  }

  /** Then b reads a's record and brings its queue pair up, a's write of the barrier having failed. */
  lemma OtherAtBarrier(x: Info, y: Info) returns (tr: seq<State>)
    requires x.psn < PSN_LIMIT && y.psn < PSN_LIMIT
    ensures tr != [] && Run(Faults(true, false, false), tr)
    ensures
      var s := tr[|tr| - 1];
      && s.a.pc == ReadSync && !s.a.synced && s.b.pc == WriteSync && s.ab == s.ba == []
  {
    var faults := Faults(true, false, false);
    tr := OneAtBarrier(faults, x, y);
    hide Run;
    var a, b := tr[|tr| - 1].a.(pc := ReadSync), tr[|tr| - 1].b;
    tr := Extend(faults, tr, State(a, b, [Record(x)], []));
    b := b.(pc := AtInit, remote := x);
    tr := Extend(faults, tr, State(a, b, [], []));
    b := Transition(b, ToInit, AtRtr);
    tr := Extend(faults, tr, State(a, b, [], []));
    b := Transition(b, ToRtr(x.qpNum, x.psn), AtRts);
    tr := Extend(faults, tr, State(a, b, [], []));
    b := Transition(b, ToRts(y.psn), WriteSync);
    tr := Extend(faults, tr, State(a, b, [], []));
  }

  /** The program does not look at the result of its write either.  If it fails, the other side can wait in its read for
      ever, although no read fails. */
  lemma WaitsForEver(x: Info, y: Info) returns (tr: seq<State>)
    requires x.psn < PSN_LIMIT && y.psn < PSN_LIMIT
    ensures tr != [] && Run(Faults(true, false, false), tr)
    ensures tr[|tr| - 1].a.pc == Connected && tr[|tr| - 1].b.pc == ReadSync
    ensures forall faults: Faults :: !faults.empty ==> Blocked(faults, tr[|tr| - 1])
  {
    var faults := Faults(true, false, false);
    tr := OtherAtBarrier(x, y);
    hide Run;
    var a, b := tr[|tr| - 1].a, tr[|tr| - 1].b.(pc := ReadSync, wrote := true);
    tr := Extend(faults, tr, State(a, b, [], [Sync]));
    a := a.(pc := Connected, synced := true);
    tr := Extend(faults, tr, State(a, b, [], []));
  }
}
