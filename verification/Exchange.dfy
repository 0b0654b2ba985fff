/** Two processes that exchange records over a TCP connection, as the examples do before they use a queue pair:
    first the queue pair records, then possibly the memory region records, then a one-byte barrier.  In each
    exchange both sides first write their whole record and then read the other's.  A write moves any positive
    number of bytes that the stream still accepts, a read any positive number that has arrived. */
module Exchange {

  type Byte = b: int | 0 <= b < 256

  /** The records of both sides, and how many bytes each direction of the connection can hold. */
  datatype Config = Config(recA: seq<seq<Byte>>, recB: seq<seq<Byte>>, capAB: nat, capBA: nat)

  /** A process in exchange idx: writing, with sent bytes of its record written, or reading, with part read. */
  datatype Side = Side(idx: nat, writing: bool, sent: nat, part: seq<Byte>, got: seq<seq<Byte>>)

  datatype State = State(a: Side, b: Side, ab: seq<Byte>, ba: seq<Byte>)

  /** Both sides exchange records of the same types, so of the same sizes. */
  ghost predicate ValidConfig(c: Config) {
    && |c.recA| == |c.recB| && c.capAB > 0 && c.capBA > 0
    && forall k :: 0 <= k < |c.recA| ==> |c.recA[k]| == |c.recB[k]|
  }

  const START: Side := Side(0, true, 0, [], [])

  function Init(): State {
    State(START, START, [], [])
  }

  /** One turn of a process: own are its records, out the bytes under way to the peer, inn those from it. */
  ghost predicate Turn(own: seq<seq<Byte>>, cap: nat, s: Side, s': Side, out: seq<Byte>, out': seq<Byte>,
                       inn: seq<Byte>, inn': seq<Byte>)
  {
    s.idx < |own| &&
    var size := |own[s.idx]|;
    if s.writing then
      && inn' == inn
      && if s.sent < size then
           && s' == s.(sent := s'.sent) && s.sent < s'.sent <= size
           && out' == out + own[s.idx][s.sent..s'.sent] && |out'| <= cap
         else
           s' == s.(writing := false) && out' == out
    else
      && out' == out
      && if |s.part| < size then
           && |inn'| < |inn| && inn' == inn[|inn| - |inn'|..]
           && s' == s.(part := s.part + inn[..|inn| - |inn'|]) && |s'.part| <= size
         else
           s' == Side(s.idx + 1, true, 0, [], s.got + [s.part]) && inn' == inn
  }

  ghost predicate Next(c: Config, s: State, s': State) {
    || (Turn(c.recA, c.capAB, s.a, s'.a, s.ab, s'.ab, s.ba, s'.ba) && s'.b == s.b)
    || (Turn(c.recB, c.capBA, s.b, s'.b, s.ba, s'.ba, s.ab, s'.ab) && s'.a == s.a)
  }

  ghost predicate Done(c: Config, s: State) {
    s.a.idx == s.b.idx == |c.recA|
  }

  /** The states of a run from s. */
  ghost predicate Run(c: Config, s: State, tr: seq<State>) {
    && tr != [] && tr[0] == s
    && forall k :: 0 <= k < |tr| - 1 ==> Next(c, tr[k], tr[k + 1])
  }

  ghost predicate Reachable(c: Config, s: State) {
    exists tr :: Run(c, Init(), tr) && tr[|tr| - 1] == s
  }

  // ---------- byte streams ----------

  function Flat(recs: seq<seq<Byte>>): seq<Byte> {
    if recs == [] then [] else Flat(recs[..|recs| - 1]) + recs[|recs| - 1]
  }

  /** Where record k begins in the stream. */
  function Off(recs: seq<seq<Byte>>, k: nat): nat
    requires k <= |recs|
  {
    if k == 0 then 0 else Off(recs, k - 1) + |recs[k - 1]|
  }

  lemma {:induction false} FlatLength(recs: seq<seq<Byte>>, k: nat)
    requires k <= |recs|
    ensures |Flat(recs[..k])| == Off(recs, k)
  {
    if k > 0 {
      FlatLength(recs, k - 1);
      assert recs[..k][..k - 1] == recs[..k - 1];
    }
  }

  lemma {:induction false} OffMonotone(recs: seq<seq<Byte>>, j: nat, k: nat)
    requires j <= k <= |recs|
    ensures Off(recs, j) <= Off(recs, k)
  {
    if j < k {
      OffMonotone(recs, j, k - 1);
    }
  }

  lemma {:induction false} FlatPrefix(recs: seq<seq<Byte>>, k: nat)
    requires k <= |recs|
    ensures Off(recs, k) <= |Flat(recs)| && Flat(recs)[..Off(recs, k)] == Flat(recs[..k])
    decreases |recs|
  {
    FlatLength(recs, k);
    var n := |recs| - 1;
    if k == |recs| {
      assert recs[..k] == recs;
    } else {
      FlatPrefix(recs[..n], k);
      OffPrefix(recs, n, k);
      assert recs[..n][..k] == recs[..k];
    }
  }

  lemma {:induction false} OffPrefix(recs: seq<seq<Byte>>, n: nat, k: nat)
    requires k <= n <= |recs|
    ensures Off(recs[..n], k) == Off(recs, k)
  {
    if k > 0 {
      OffPrefix(recs, n, k - 1);
    }
  }

  /** Record k occupies its own stretch of the stream. */
  lemma FlatSlice(recs: seq<seq<Byte>>, k: nat)
    requires k < |recs|
    ensures Off(recs, k) <= Off(recs, k + 1) <= |Flat(recs)|
    ensures Flat(recs)[Off(recs, k)..Off(recs, k + 1)] == recs[k]
  {
    FlatPrefix(recs, k);
    FlatPrefix(recs, k + 1);
    FlatLength(recs, k);
    assert recs[..k + 1][..k] == recs[..k];
    assert Flat(recs)[..Off(recs, k + 1)][Off(recs, k)..] == recs[k];
  }

  lemma {:induction false} SameOffsets(c: Config, k: nat)
    requires ValidConfig(c) && k <= |c.recA|
    ensures Off(c.recA, k) == Off(c.recB, k)
  {
    if k > 0 {
      SameOffsets(c, k - 1);
    }
  }

  // ---------- the invariant ----------

  /** Bytes written and bytes read by a process in exchange s.idx. */
  function Sent(own: seq<seq<Byte>>, s: Side): nat
    requires s.idx <= |own|
  {
    Off(own, s.idx) + if s.idx == |own| then 0 else if s.writing then s.sent else |own[s.idx]|
  }

  function Got(other: seq<seq<Byte>>, s: Side): nat
    requires s.idx <= |other|
  {
    Off(other, s.idx) + |s.part|
  }

  ghost predicate SideOk(own: seq<seq<Byte>>, s: Side) {
    && s.idx <= |own|
    && (s.idx == |own| ==> s.writing && s.sent == 0)
    && (s.writing ==> s.part == [])
    && (s.idx < |own| ==> s.sent <= |own[s.idx]| && |s.part| <= |own[s.idx]|)
  }

  /** Whatever the fragmentation, receiver r has read a prefix of sender s's stream, cut into the records that
      were sent, and the bytes under way are exactly those in between. */
  ghost predicate DirectionOk(recs: seq<seq<Byte>>, s: Side, r: Side, chan: seq<Byte>) {
    && s.idx <= |recs| && r.idx <= |recs|
    && Got(recs, r) <= Sent(recs, s) <= |Flat(recs)|
    && chan == Flat(recs)[Got(recs, r)..Sent(recs, s)]
    && r.got == recs[..r.idx]
    && r.part == Flat(recs)[Off(recs, r.idx)..Got(recs, r)]
  }

  ghost predicate Inv(c: Config, s: State) {
    && ValidConfig(c)
    && SideOk(c.recA, s.a) && SideOk(c.recB, s.b)
    && DirectionOk(c.recA, s.a, s.b, s.ab)
    && DirectionOk(c.recB, s.b, s.a, s.ba)
  }

  lemma InitInv(c: Config)
    requires ValidConfig(c)
    ensures Inv(c, Init())
  {
  }

  lemma TurnKeepsSide(own: seq<seq<Byte>>, cap: nat, s: Side, s': Side, out: seq<Byte>, out': seq<Byte>,
                      inn: seq<Byte>, inn': seq<Byte>)
    requires Turn(own, cap, s, s', out, out', inn, inn') && SideOk(own, s)
    ensures SideOk(own, s')
  {
  }

  lemma SliceOfSlice(f: seq<Byte>, o: nat, n: nat, i: nat, j: nat)
    requires i <= j <= n && o + n <= |f|
    ensures f[o..o + n][i..j] == f[o + i..o + j]
  {
    var a, b := f[o..o + n][i..j], f[o + i..o + j];
    assert forall k :: 0 <= k < j - i ==> a[k] == b[k];
  }

  lemma Join(f: seq<Byte>, g: nat, e: nat, e': nat)
    requires g <= e <= e' <= |f|
    ensures f[g..e] + f[e..e'] == f[g..e']
  {
  }

  lemma WriteKeepsOut(own: seq<seq<Byte>>, s: Side, s': Side, out: seq<Byte>, out': seq<Byte>, r: Side)
    requires SideOk(own, s) && DirectionOk(own, s, r, out)
    requires s.idx < |own| && s.writing && s.sent < s'.sent <= |own[s.idx]| && s' == s.(sent := s'.sent)
    requires out' == out + own[s.idx][s.sent..s'.sent]
    ensures DirectionOk(own, s', r, out')
  {
    FlatSlice(own, s.idx);
    hide Flat;
    var f, o, n := Flat(own), Off(own, s.idx), |own[s.idx]|;
    assert f[o..o + n] == own[s.idx];
    SliceOfSlice(f, o, n, s.sent, s'.sent);
    Join(f, Got(own, r), o + s.sent, o + s'.sent);
  }

  /** A turn of the sender. */
  lemma TurnKeepsOut(own: seq<seq<Byte>>, cap: nat, s: Side, s': Side, out: seq<Byte>, out': seq<Byte>,
                     inn: seq<Byte>, inn': seq<Byte>, r: Side)
    requires Turn(own, cap, s, s', out, out', inn, inn') && SideOk(own, s)
    requires DirectionOk(own, s, r, out)
    ensures DirectionOk(own, s', r, out')
  {
    hide Flat;
    if s.writing && s.sent < |own[s.idx]| {
      hide DirectionOk, SideOk;
      WriteKeepsOut(own, s, s', out, out', r);
    }
  }

  lemma ReadKeepsIn(r: Side, r': Side, inn: seq<Byte>, inn': seq<Byte>, recs: seq<seq<Byte>>, s: Side)
    requires DirectionOk(recs, s, r, inn) && r.idx < |recs| && |inn'| < |inn|
    requires inn' == inn[|inn| - |inn'|..] && r' == r.(part := r.part + inn[..|inn| - |inn'|])
    ensures DirectionOk(recs, s, r', inn')
  {
    hide Flat;
    SplitStream(Flat(recs), Off(recs, r.idx), Got(recs, r), |inn| - |inn'|, Sent(recs, s));
  }

  /** A turn of the receiver, whose records have the sizes of the sender's. */
  lemma TurnKeepsIn(own: seq<seq<Byte>>, cap: nat, r: Side, r': Side, out: seq<Byte>, out': seq<Byte>,
                    inn: seq<Byte>, inn': seq<Byte>, recs: seq<seq<Byte>>, s: Side)
    requires Turn(own, cap, r, r', out, out', inn, inn') && SideOk(own, r)
    requires |recs| == |own| && |recs[r.idx]| == |own[r.idx]|
    requires DirectionOk(recs, s, r, inn)
    ensures DirectionOk(recs, s, r', inn')
  {
    FlatSlice(recs, r.idx);
    hide Flat;
    if !r.writing && |r.part| < |own[r.idx]| {
      hide SideOk;
      ReadKeepsIn(r, r', inn, inn', recs, s);
    }
  }

  lemma SplitStream(f: seq<Byte>, o: nat, g: nat, n: nat, e: nat)
    requires o <= g <= g + n <= e <= |f|
    ensures f[o..g] + f[g..e][..n] == f[o..g + n]
    ensures f[g..e][n..] == f[g + n..e]
  {
  }

  lemma NextInv(c: Config, s: State, s': State)
    requires Inv(c, s) && Next(c, s, s')
    ensures Inv(c, s')
  {
    if Turn(c.recA, c.capAB, s.a, s'.a, s.ab, s'.ab, s.ba, s'.ba) && s'.b == s.b {
      TurnKeepsSide(c.recA, c.capAB, s.a, s'.a, s.ab, s'.ab, s.ba, s'.ba);
      TurnKeepsOut(c.recA, c.capAB, s.a, s'.a, s.ab, s'.ab, s.ba, s'.ba, s.b);
      TurnKeepsIn(c.recA, c.capAB, s.a, s'.a, s.ab, s'.ab, s.ba, s'.ba, c.recB, s.b);
    } else {
      TurnKeepsSide(c.recB, c.capBA, s.b, s'.b, s.ba, s'.ba, s.ab, s'.ab);
      TurnKeepsOut(c.recB, c.capBA, s.b, s'.b, s.ba, s'.ba, s.ab, s'.ab, s.a);
      TurnKeepsIn(c.recB, c.capBA, s.b, s'.b, s.ba, s'.ba, s.ab, s'.ab, c.recA, s.a);
    }
  }

  // ---------- correctness over every run ----------

  lemma {:induction false} RunInv(c: Config, tr: seq<State>, k: nat)
    requires ValidConfig(c) && Run(c, Init(), tr) && k < |tr|
    ensures Inv(c, tr[k])
  {
    if k == 0 {
      InitInv(c);
    } else {
      RunInv(c, tr, k - 1);
      NextInv(c, tr[k - 1], tr[k]);
    }
  }

  /** However the stream fragments writes and reads, each side has at every moment exactly the records the other
      sent first, and at the end all of them, with no byte left behind in either direction. */
  lemma ExchangeCorrect(c: Config, s: State)
    requires ValidConfig(c) && Reachable(c, s)
    ensures s.a.idx <= |c.recB| && s.b.idx <= |c.recA|
    ensures s.a.got == c.recB[..s.a.idx] && s.b.got == c.recA[..s.b.idx]
    ensures Done(c, s) ==> s.a.got == c.recB && s.b.got == c.recA && s.ab == s.ba == []
  {
    var tr :| Run(c, Init(), tr) && tr[|tr| - 1] == s;
    RunInv(c, tr, |tr| - 1);
    if Done(c, s) {
      FlatPrefix(c.recA, |c.recA|);
      FlatPrefix(c.recB, |c.recB|);
    }
  }

  // ---------- progress ----------

  /** A process can take a turn unless it waits for room in the stream or for bytes from the peer. */
  predicate CanTurn(own: seq<seq<Byte>>, cap: nat, s: Side, out: seq<Byte>, inn: seq<Byte>) {
    s.idx < |own| &&
    if s.writing then s.sent < |own[s.idx]| ==> |out| < cap
    else |s.part| < |own[s.idx]| ==> inn != []
  }

  ghost predicate Stuck(c: Config, s: State) {
    && !CanTurn(c.recA, c.capAB, s.a, s.ab, s.ba)
    && !CanTurn(c.recB, c.capBA, s.b, s.ba, s.ab)
  }

  /** The turn that moves as much as it can. */
  lemma TakeTurn(own: seq<seq<Byte>>, cap: nat, s: Side, out: seq<Byte>, inn: seq<Byte>)
    returns (s': Side, out': seq<Byte>, inn': seq<Byte>)
    requires SideOk(own, s) && CanTurn(own, cap, s, out, inn)
    ensures Turn(own, cap, s, s', out, out', inn, inn')
    ensures s.writing && s.sent < |own[s.idx]| && out == [] && cap < |own[s.idx]| && s.sent == 0 ==>
              s' == s.(sent := cap) && |out'| == cap && inn' == inn
  {
    s', out', inn' := s, out, inn;
    var size := |own[s.idx]|;
    if s.writing && s.sent < size {
      var n := if size - s.sent <= cap - |out| then size - s.sent else cap - |out|;
      s' := s.(sent := s.sent + n);
      out' := out + own[s.idx][s.sent..s.sent + n];
    } else if s.writing {
      s' := s.(writing := false);
    } else if |s.part| < size {
      var n := if size - |s.part| <= |inn| then size - |s.part| else |inn|;
      inn' := inn[n..];
      s' := s.(part := s.part + inn[..n]);
    } else {
      s' := Side(s.idx + 1, true, 0, [], s.got + [s.part]);
    }
  }

  /** Being stuck, which is a condition on the state, is having no next state. */
  lemma CanTurnIff(c: Config, s: State)
    requires Inv(c, s)
    ensures Stuck(c, s) <==> !exists s' :: Next(c, s, s')
  {
    if CanTurn(c.recA, c.capAB, s.a, s.ab, s.ba) {
      var a', ab', ba' := TakeTurn(c.recA, c.capAB, s.a, s.ab, s.ba);
      assert Next(c, s, State(a', s.b, ab', ba'));
    }
    if CanTurn(c.recB, c.capBA, s.b, s.ba, s.ab) {
      var b', ba', ab' := TakeTurn(c.recB, c.capBA, s.b, s.ba, s.ab);
      assert Next(c, s, State(s.a, b', ab', ba'));
    }
  }

  /** Every record fits into the stream in one direction or the other. */
  ghost predicate RecordsFit(c: Config, n: nat)
    requires n <= |c.recA|
  {
    forall k :: 0 <= k < n ==> |c.recA[k]| <= c.capAB || |c.recA[k]| <= c.capBA
  }

  lemma OffStep(recs: seq<seq<Byte>>, j: nat, k: nat)
    requires j <= |recs| && k <= |recs|
    ensures j < k ==> Off(recs, j + 1) <= Off(recs, k)
  {
    if j < k {
      OffMonotone(recs, j + 1, k);
    }
  }

  /** Two processes that are both stopped are both stopped writing the same record. */
  lemma StuckInWriting(c: Config, s: State)
    requires Inv(c, s) && Stuck(c, s) && !Done(c, s)
    ensures s.a.idx == s.b.idx < |c.recA| && s.a.writing && s.b.writing
    ensures c.capAB <= |s.ab| == s.a.sent < |c.recA[s.a.idx]|
    ensures c.capBA <= |s.ba| == s.b.sent < |c.recA[s.a.idx]|
  {
    var i, j, n := s.a.idx, s.b.idx, |c.recA|;
    SameOffsets(c, i);
    SameOffsets(c, j);
    OffStep(c.recA, i, j);
    OffStep(c.recA, j, i);
    OffStep(c.recA, i, n);
    OffStep(c.recA, j, n);
  }

  lemma NoDeadlock(c: Config, s: State)
    requires Inv(c, s) && RecordsFit(c, |c.recA|) && !Done(c, s)
    ensures !Stuck(c, s)
  {
    if Stuck(c, s) {
      StuckInWriting(c, s);
    }
  }

  // ---------- termination ----------

  function Flag(s: Side): nat {
    if s.writing then 1 else 0
  }

  /** What a process still has to do: exchanges, and bytes to write and to read. */
  function Work(own: seq<seq<Byte>>, other: seq<seq<Byte>>, s: Side): int
    requires s.idx <= |own| == |other|
  {
    2 * (|own| - s.idx) + Flag(s) + |Flat(own)| - Sent(own, s) + |Flat(other)| - Got(other, s)
  }

  function Measure(c: Config, s: State): int
    requires s.a.idx <= |c.recA| == |c.recB| && s.b.idx <= |c.recA|
  {
    Work(c.recA, c.recB, s.a) + Work(c.recB, c.recA, s.b)
  }

  lemma TurnDecreases(own: seq<seq<Byte>>, other: seq<seq<Byte>>, cap: nat, s: Side, s': Side, out: seq<Byte>,
                      out': seq<Byte>, inn: seq<Byte>, inn': seq<Byte>)
    requires Turn(own, cap, s, s', out, out', inn, inn') && SideOk(own, s)
    requires |own| == |other| && |own[s.idx]| == |other[s.idx]|
    ensures Work(own, other, s') < Work(own, other, s)
  {
  }

  /** Every turn of either process uses up some of a bound that depends on the records alone. */
  lemma NextDecreases(c: Config, s: State, s': State)
    requires Inv(c, s) && Next(c, s, s')
    ensures Inv(c, s') && 0 <= Measure(c, s') < Measure(c, s)
  {
    NextInv(c, s, s');
    hide Work;
    if Turn(c.recA, c.capAB, s.a, s'.a, s.ab, s'.ab, s.ba, s'.ba) && s'.b == s.b {
      TurnDecreases(c.recA, c.recB, c.capAB, s.a, s'.a, s.ab, s'.ab, s.ba, s'.ba);
    } else {
      TurnDecreases(c.recB, c.recA, c.capBA, s.b, s'.b, s.ba, s'.ba, s.ab, s'.ab);
    }
    MeasureNonNegative(c, s');
  }

  lemma MeasureNonNegative(c: Config, s: State)
    requires Inv(c, s)
    ensures Measure(c, s) >= 0
  {
  }

  // ---------- exactly when the exchange can deadlock ----------

  lemma RunPrepend(c: Config, s: State, tr: seq<State>)
    requires tr != [] && Run(c, tr[0], tr) && Next(c, s, tr[0])
    ensures Run(c, s, [s] + tr)
  {
  }

  lemma RunAppend(c: Config, s: State, tr: seq<State>, s': State)
    requires Run(c, s, tr) && Next(c, tr[|tr| - 1], s')
    ensures Run(c, s, tr + [s'])
  {
  }

  /** From any state a run completes all exchanges if every record fits. */
  lemma {:induction false} Completes(c: Config, s: State) returns (tr: seq<State>)
    requires Inv(c, s) && RecordsFit(c, |c.recA|)
    ensures Run(c, s, tr) && Done(c, tr[|tr| - 1])
    decreases Measure(c, s)
  {
    hide Inv, Next, RecordsFit, Work, Stuck;
    if Done(c, s) {
      tr := [s];
    } else {
      NoDeadlock(c, s);
      CanTurnIff(c, s);
      var s' :| Next(c, s, s');
      NextDecreases(c, s, s');
      var rest := Completes(c, s');
      RunPrepend(c, s, rest);
      tr := [s] + rest;
    }
  }

  /** Only the first n exchanges. */
  function Truncate(c: Config, n: nat): Config
    requires n <= |c.recA| == |c.recB|
  {
    Config(c.recA[..n], c.recB[..n], c.capAB, c.capBA)
  }

  lemma TruncatedRun(c: Config, n: nat, s: State, tr: seq<State>)
    requires n <= |c.recA| == |c.recB| && Run(Truncate(c, n), s, tr)
    ensures Run(c, s, tr)
  {
  }

  /** Both sides fill the stream with a record that fits in neither direction. */
  lemma BothWrite(c: Config, s: State) returns (s1: State, s2: State)
    requires ValidConfig(c) && s.a.idx == s.b.idx < |c.recA| && SideOk(c.recA, s.a) && SideOk(c.recB, s.b)
    requires s.a.writing && s.b.writing && s.a.sent == s.b.sent == 0 && s.ab == s.ba == []
    requires c.capAB < |c.recA[s.a.idx]| && c.capBA < |c.recA[s.a.idx]|
    ensures Next(c, s, s1) && Next(c, s1, s2) && Stuck(c, s2) && !Done(c, s2)
  {
    var a', ab', ba' := TakeTurn(c.recA, c.capAB, s.a, s.ab, s.ba);
    s1 := State(a', s.b, ab', ba');
    var b', ba'', ab'' := TakeTurn(c.recB, c.capBA, s1.b, s1.ba, s1.ab);
    s2 := State(a', b', ab'', ba'');
  }

  lemma DeadlockReached(c: Config, k: nat) returns (s: State)
    requires ValidConfig(c) && k < |c.recA| && RecordsFit(c, k)
    requires c.capAB < |c.recA[k]| && c.capBA < |c.recA[k]|
    ensures Reachable(c, s) && Stuck(c, s) && !Done(c, s)
  {
    var ck := Truncate(c, k);
    InitInv(ck);
    var tr := Completes(ck, Init());
    var s0 := tr[|tr| - 1];
    RunInv(ck, tr, |tr| - 1);
    ExchangeCorrect(ck, s0);
    TruncatedRun(c, k, Init(), tr);
    var s1, s2 := BothWrite(c, s0);
    RunAppend(c, Init(), tr, s1);
    RunAppend(c, Init(), tr + [s1], s2);
    var full := tr + [s1] + [s2];
    assert full[|full| - 1] == s2;
    s := s2;
  }

  lemma {:induction false} FirstMisfit(c: Config, n: nat) returns (k: nat)
    requires n <= |c.recA| && !RecordsFit(c, n)
    ensures k < n && RecordsFit(c, k) && c.capAB < |c.recA[k]| && c.capBA < |c.recA[k]|
  {
    if RecordsFit(c, n - 1) {
      k := n - 1;
    } else {
      k := FirstMisfit(c, n - 1);
    }
  }

  /** The symmetric write-then-read order cannot deadlock, in any interleaving and fragmentation, iff each record
      fits into the stream in at least one of the two directions. */
  lemma DeadlockFreeIff(c: Config)
    requires ValidConfig(c)
    ensures (forall s :: Reachable(c, s) && !Done(c, s) ==> exists s' :: Next(c, s, s')) <==> RecordsFit(c, |c.recA|)
  {
    if RecordsFit(c, |c.recA|) {
      forall s | Reachable(c, s) && !Done(c, s)
        ensures exists s' :: Next(c, s, s')
      {
        var tr :| Run(c, Init(), tr) && tr[|tr| - 1] == s;
        RunInv(c, tr, |tr| - 1);
        NoDeadlock(c, s);
        CanTurnIff(c, s);
      }
    } else {
      var k := FirstMisfit(c, |c.recA|);
      var s := DeadlockReached(c, k);
      var tr :| Run(c, Init(), tr) && tr[|tr| - 1] == s;
      RunInv(c, tr, |tr| - 1);
      CanTurnIff(c, s);
    }
  }
}
