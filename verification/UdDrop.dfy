/** When the receiver of the datagram example finds no buffer posted: its posts, polls and reposts and the arrivals of
    the datagrams as the steps of a state machine.

    The sender may start once both sides have passed the barrier.  It waits only for its own completions, so all its
    datagrams may be under way at once. */
module UdDrop {

  import opened Srq
  import opened UdPool

  /** The datagrams sent, how many the receiver waits for, its buffers, and how many of them it has posted when it
      passes the barrier. */
  datatype Config = Config(texts: seq<seq<char>>, wanted: nat, buffers: nat, early: nat)

  /** Posting the buffers from n on, waiting for the message after i others, or holding the buffer of message i. */
  datatype Pc = Posting(n: nat) | Waiting(i: nat) | Holding(i: nat, b: nat)

  datatype State = State(pc: Pc, rq: seq<nat>, cq: seq<Wc>, fates: seq<Fate>)

  ghost predicate ValidConfig(c: Config) {
    c.early <= c.buffers
  }

  function Init(c: Config): State {
    State(Posting(c.early), seq(c.early, (b: nat) => b), [], seq(|c.texts|, (_: nat) => Travelling))
  }

  ghost predicate ReceiverStep(c: Config, s: State, s': State) {
    match s.pc
    case Posting(n) =>
      if n < c.buffers then s' == s.(pc := Posting(n + 1), rq := s.rq + [n]) else s' == s.(pc := Waiting(0))
    case Waiting(i) =>
      i < c.wanted && s.cq != [] && s.cq[0].RecvWc? && s' == s.(pc := Holding(i, s.cq[0].buf), cq := s.cq[1..])
    case Holding(i, b) => s' == s.(pc := Waiting(i + 1), rq := s.rq + [b])
  }

  ghost predicate Arrive(c: Config, s: State, s': State, k: nat) {
    s'.pc == s.pc && Arrival(c.texts, s.rq, s.cq, s.fates, k, s'.rq, s'.cq, s'.fates)
  }

  ghost predicate Lose(s: State, s': State, k: nat) {
    k < |s.fates| && s.fates[k] == Travelling && s' == s.(fates := s.fates[k := Lost])
  }

  /** A lossless network only delivers. */
  ghost predicate Next(c: Config, lossy: bool, s: State, s': State) {
    || ReceiverStep(c, s, s')
    || (exists k: nat :: Arrive(c, s, s', k))
    || (lossy && exists k: nat :: Lose(s, s', k))
  }

  ghost predicate Run(c: Config, lossy: bool, tr: seq<State>) {
    && tr != [] && tr[0] == Init(c)
    && forall k :: 0 <= k < |tr| - 1 ==> Next(c, lossy, tr[k], tr[k + 1])
  }

  ghost predicate Reachable(c: Config, lossy: bool, s: State) {
    exists tr :: Run(c, lossy, tr) && tr[|tr| - 1] == s
  }

  ghost predicate Stuck(c: Config, lossy: bool, s: State) {
    !exists s' :: Next(c, lossy, s, s')
  }

  /** The receive loop is through. */
  predicate Ended(c: Config, s: State) {
    s.pc == Waiting(c.wanted)
  }

  // ---------- counting ----------

  function Count(fates: seq<Fate>, f: Fate): nat {
    if fates == [] then 0 else Count(fates[..|fates| - 1], f) + if fates[|fates| - 1] == f then 1 else 0
  }

  lemma {:induction false} CountUpdate(fates: seq<Fate>, k: nat, g: Fate, f: Fate)
    requires k < |fates|
    ensures Count(fates[k := g], f)
            == Count(fates, f) - (if fates[k] == f then 1 else 0) + (if g == f then 1 else 0)
  {
    var n := |fates| - 1;
    if k == n {
      assert fates[k := g][..n] == fates[..n];
    } else {
      assert fates[k := g][..n] == fates[..n][k := g];
      CountUpdate(fates[..n], k, g, f);
    }
  }

  lemma {:induction false} CountAll(fates: seq<Fate>)
    ensures Count(fates, Travelling) + Count(fates, Received) + Count(fates, Lost) + Count(fates, Dropped) == |fates|
  {
    if fates != [] {
      CountAll(fates[..|fates| - 1]);
    }
  }

  lemma {:induction false} CountNone(fates: seq<Fate>, f: Fate)
    ensures Count(fates, f) == 0 <==> f !in fates
  {
    if fates != [] {
      CountNone(fates[..|fates| - 1], f);
      assert fates == fates[..|fates| - 1] + [fates[|fates| - 1]];
    }
  }

  // ---------- the invariant ----------

  /** Buffers in circulation, and messages taken. */
  function Circulating(c: Config, s: State): nat {
    if s.pc.Posting? then s.pc.n else c.buffers
  }

  function Taken(s: State): nat {
    match s.pc case Posting(_) => 0 case Waiting(i) => i case Holding(i, _) => i + 1
  }

  function Held(s: State): nat {
    if s.pc.Holding? then 1 else 0
  }

  /** A datagram was only dropped after as many had been received as buffers were posted early. */
  ghost predicate Inv(c: Config, lossy: bool, s: State) {
    && |s.fates| == |c.texts| && (s.pc.Posting? ==> c.early <= s.pc.n <= c.buffers) && Taken(s) <= c.wanted
    && (forall wc :: wc in s.cq ==> wc.RecvWc?)
    && |s.rq| + |s.cq| + Held(s) == Circulating(c, s)
    && Count(s.fates, Received) == |s.cq| + Taken(s)
    && (Count(s.fates, Dropped) > 0 ==> Count(s.fates, Received) >= c.early)
    && (!lossy ==> Count(s.fates, Lost) == 0)
  }

  lemma InitInv(c: Config, lossy: bool)
    requires ValidConfig(c)
    ensures Inv(c, lossy, Init(c)) && Count(Init(c).fates, Travelling) == |c.texts|
  {
    var f := Init(c).fates;
    CountNone(f, Received);
    CountNone(f, Dropped);
    CountNone(f, Lost);
    CountAll(f);
  }

  lemma ReceiverInv(c: Config, lossy: bool, s: State, s': State)
    requires ValidConfig(c) && Inv(c, lossy, s) && ReceiverStep(c, s, s')
    ensures Inv(c, lossy, s')
  {
    hide Count;
    assert s.cq != [] ==> s.cq[0] in s.cq;
  }

  lemma ArriveInv(c: Config, lossy: bool, s: State, s': State, k: nat)
    requires ValidConfig(c) && Inv(c, lossy, s) && Arrive(c, s, s', k)
    ensures Inv(c, lossy, s')
    ensures Count(s'.fates, Travelling) == Count(s.fates, Travelling) - 1
    ensures Count(s'.fates, if s.rq == [] then Dropped else Received)
            == Count(s.fates, if s.rq == [] then Dropped else Received) + 1
  {
    var g := if s.rq == [] then Dropped else Received;
    CountUpdate(s.fates, k, g, Received);
    CountUpdate(s.fates, k, g, Dropped);
    CountUpdate(s.fates, k, g, Lost);
    CountUpdate(s.fates, k, g, Travelling);
    hide Count, Message;
  }

  lemma LoseInv(c: Config, s: State, s': State, k: nat)
    requires ValidConfig(c) && Inv(c, true, s) && Lose(s, s', k)
    ensures Inv(c, true, s') && Count(s'.fates, Travelling) == Count(s.fates, Travelling) - 1
  {
    CountUpdate(s.fates, k, Lost, Received);
    CountUpdate(s.fates, k, Lost, Dropped);
    CountUpdate(s.fates, k, Lost, Travelling);
    hide Count;
  }

  lemma NextInv(c: Config, lossy: bool, s: State, s': State)
    requires ValidConfig(c) && Inv(c, lossy, s) && Next(c, lossy, s, s')
    ensures Inv(c, lossy, s')
  {
    hide Inv, ReceiverStep, Arrive, Lose;
    if ReceiverStep(c, s, s') {
      ReceiverInv(c, lossy, s, s');
    } else if k: nat :| Arrive(c, s, s', k) {
      ArriveInv(c, lossy, s, s', k);
    } else {
      var k: nat :| Lose(s, s', k);
      LoseInv(c, s, s', k);
    }
  }

  lemma {:induction false} RunInv(c: Config, lossy: bool, tr: seq<State>, k: nat)
    requires ValidConfig(c) && Run(c, lossy, tr) && k < |tr|
    ensures Inv(c, lossy, tr[k])
  {
    hide Inv, Next, Init;
    if k == 0 {
      InitInv(c, lossy);
    } else {
      RunInv(c, lossy, tr, k - 1);
      NextInv(c, lossy, tr[k - 1], tr[k]);
    }
  }

  lemma ReachableInv(c: Config, lossy: bool, s: State)
    requires ValidConfig(c) && Reachable(c, lossy, s)
    ensures Inv(c, lossy, s)
  {
    var tr :| Run(c, lossy, tr) && tr[|tr| - 1] == s;
    RunInv(c, lossy, tr, |tr| - 1);
  }

  lemma Extend(c: Config, lossy: bool, s: State, s': State)
    requires Reachable(c, lossy, s) && Next(c, lossy, s, s')
    ensures Reachable(c, lossy, s')
  {
    hide Next;
    var tr :| Run(c, lossy, tr) && tr[|tr| - 1] == s;
    var longer := tr + [s'];
    assert Run(c, lossy, longer) && longer[|longer| - 1] == s';
  }

  // ---------- drops ----------

  /** Everything that is sent arrives before the receiver makes another step. */
  lemma {:induction false} Flood(c: Config, k: nat) returns (s: State)
    requires ValidConfig(c) && k <= |c.texts|
    ensures Reachable(c, false, s) && s.pc == Posting(c.early) && |s.fates| == |c.texts|
    ensures |s.rq| == if k <= c.early then c.early - k else 0
    ensures Count(s.fates, Travelling) == |c.texts| - k
    ensures Count(s.fates, Dropped) == if k <= c.early then 0 else k - c.early
  {
    if k == 0 {
      s := Init(c);
      InitInv(c, false);
      CountNone(s.fates, Dropped);
      assert Run(c, false, [s]);
    } else {
      var t := Flood(c, k - 1);
      ReachableInv(c, false, t);
      CountNone(t.fates, Travelling);
      var j: nat :| j < |t.fates| && t.fates[j] == Travelling;
      s := Arrived(c, t, j);
      CountUpdate(t.fates, j, s.fates[j], Travelling);
      CountUpdate(t.fates, j, s.fates[j], Dropped);
      hide Count, Message;
      Extend(c, false, t, s);
    }
  }

  function Arrived(c: Config, s: State, k: nat): State
    requires k < |s.fates| == |c.texts| && s.fates[k] == Travelling
    ensures Arrive(c, s, Arrived(c, s, k), k)
  {
    if s.rq == [] then s.(fates := s.fates[k := Dropped])
    else s.(rq := s.rq[1..], cq := s.cq + [RecvWc(s.rq[0], k, GRH_SIZE + |Message(c.texts[k])|)],
            fates := s.fates[k := Received])
  }

  /** A network that loses nothing never delivers into an empty receive queue iff no more datagrams are sent than
      buffers are posted before the barrier. */
  lemma NoDropIff(c: Config)
    requires ValidConfig(c)
    ensures (forall s :: Reachable(c, false, s) ==> Dropped !in s.fates) <==> |c.texts| <= c.early
  {
    if |c.texts| <= c.early {
      forall s | Reachable(c, false, s)
        ensures Dropped !in s.fates
      {
        ReachableInv(c, false, s);
        CountAll(s.fates);
        CountNone(s.fates, Dropped);
      }
    } else {
      var s := Flood(c, |c.texts|);
      CountNone(s.fates, Dropped);
    }
  }

  // ---------- the end of the loop ----------

  function Left(c: Config, s: State): int {
    if s.pc.Posting? then c.buffers - s.pc.n + 1 else 0
  }

  function Measure(c: Config, s: State): int {
    3 * Count(s.fates, Travelling) + 2 * |s.cq| + Held(s) + Left(c, s)
  }

  /** Every step uses up some of a bound, so every run ends. */
  lemma NextDecreases(c: Config, lossy: bool, s: State, s': State)
    requires ValidConfig(c) && Inv(c, lossy, s) && Next(c, lossy, s, s')
    ensures 0 <= Measure(c, s') < Measure(c, s)
  {
    NextInv(c, lossy, s, s');
    if !ReceiverStep(c, s, s') {
      if k: nat :| Arrive(c, s, s', k) {
        ArriveInv(c, lossy, s, s', k);
      } else {
        var k: nat :| Lose(s, s', k);
        LoseInv(c, s, s', k);
      }
    }
    hide Count, Message;
  }

  /** What can happen next. */
  lemma CanStep(c: Config, lossy: bool, s: State)
    requires ValidConfig(c) && Inv(c, lossy, s)
    requires Travelling in s.fates || !s.pc.Waiting? || (!Ended(c, s) && s.cq != [])
    ensures exists s' :: Next(c, lossy, s, s')
  {
    if k: nat :| k < |s.fates| && s.fates[k] == Travelling {
      assert Arrive(c, s, Arrived(c, s, k), k);
      assert Next(c, lossy, s, Arrived(c, s, k));
    } else {
      match s.pc
      case Posting(n) =>
        var s' := if n < c.buffers then s.(pc := Posting(n + 1), rq := s.rq + [n]) else s.(pc := Waiting(0));
        assert Next(c, lossy, s, s');
      case Waiting(i) =>
        assert s.cq[0] in s.cq;
        assert Next(c, lossy, s, s.(pc := Holding(i, s.cq[0].buf), cq := s.cq[1..]));
      case Holding(i, b) =>
        assert Next(c, lossy, s, s.(pc := Waiting(i + 1), rq := s.rq + [b]));
    }
  }

  /** What a state is like in which nothing can. */
  lemma StuckIs(c: Config, lossy: bool, s: State)
    requires ValidConfig(c) && Inv(c, lossy, s) && Stuck(c, lossy, s)
    ensures Travelling !in s.fates && s.pc.Waiting? && (Ended(c, s) || s.cq == [])
  {
    if Travelling in s.fates || !s.pc.Waiting? || (!Ended(c, s) && s.cq != []) {
      CanStep(c, lossy, s);
    }
  }

  /** In every run, whatever the network loses, the loop ends iff as many datagrams are received as it waits for. */
  lemma StuckEndsIff(c: Config, lossy: bool, s: State)
    requires ValidConfig(c) && Reachable(c, lossy, s) && Stuck(c, lossy, s)
    ensures Travelling !in s.fates
    ensures Ended(c, s) <==> Count(s.fates, Received) >= c.wanted
  {
    ReachableInv(c, lossy, s);
    StuckIs(c, lossy, s);
  }

  /** Once everything has arrived a run goes on to its end and no fate changes. */
  lemma {:induction false} ToEnd(c: Config, s: State) returns (s': State)
    requires ValidConfig(c) && Reachable(c, false, s) && Travelling !in s.fates
    ensures Reachable(c, false, s') && Stuck(c, false, s') && s'.fates == s.fates
    decreases Measure(c, s)
  {
    ReachableInv(c, false, s);
    if Stuck(c, false, s) {
      s' := s;
    } else {
      var t :| Next(c, false, s, t);
      NextDecreases(c, false, s, t);
      Extend(c, false, s, t);
      assert t.fates == s.fates;
      hide *;
      s' := ToEnd(c, t);
    }
  }

  /** Everything arrives at once: the buffers posted early are filled, the rest is dropped, and the run goes on. */
  lemma FloodToEnd(c: Config) returns (s: State)
    requires ValidConfig(c)
    ensures Reachable(c, false, s) && Stuck(c, false, s)
    ensures Count(s.fates, Received) <= c.early && Count(s.fates, Received) <= |c.texts|
    ensures |c.texts| > c.early ==> Dropped in s.fates
  {
    var t := Flood(c, |c.texts|);
    CountNone(t.fates, Travelling);
    CountNone(t.fates, Dropped);
    CountAll(t.fates);
    hide *;
    s := ToEnd(c, t);
  }

  /** Over a network that loses nothing every run of the receiver gets through its loop iff it waits for no more
      datagrams than are sent and no more than it has posted buffers before the barrier. */
  lemma LoopEndsIff(c: Config)
    requires ValidConfig(c)
    ensures (forall s :: Reachable(c, false, s) && Stuck(c, false, s) ==> Ended(c, s))
            <==> c.wanted <= |c.texts| && c.wanted <= c.early
  {
    if c.wanted <= |c.texts| && c.wanted <= c.early {
      forall s | Reachable(c, false, s) && Stuck(c, false, s)
        ensures Ended(c, s)
      {
        ReachableInv(c, false, s);
        StuckEndsIff(c, false, s);
        CountAll(s.fates);
        CountNone(s.fates, Travelling);
      }
    } else {
      var s := FloodToEnd(c);
      StuckEndsIff(c, false, s);
    }
  }

  /** The program as written waits for all the datagrams that are sent, and posts its first buffer of 16 after the
      barrier.  Without a single loss it can drop what it waits for, and then wait for ever. */
  lemma AsWrittenWaits(texts: seq<seq<char>>) returns (s: State)
    requires texts != []
    ensures var c := Config(texts, |texts|, 16, 0); Reachable(c, false, s) && Stuck(c, false, s) && !Ended(c, s)
    ensures Dropped in s.fates && Lost !in s.fates
  {
    var c := Config(texts, |texts|, 16, 0);
    s := FloodToEnd(c);
    StuckEndsIff(c, false, s);
    ReachableInv(c, false, s);
    CountNone(s.fates, Lost);
  }
}
