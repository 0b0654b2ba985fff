/** The connection manager client and server together, and the two messages they exchange.

    Each side posts one receive and sends one message.  A poll takes completions in the order in which the side's
    completion queue got them; the completion of a send may come before or after that of the peer's answer.  A
    message that finds no posted receive would be answered with receiver-not-ready.  An empty poll changes nothing
    and is not a step.  Completions succeed, and a disconnection does not recall what has been delivered. */
module CmJoint {

  import PingPong

  const BUFFER_SIZE: nat := 1024

  datatype ClientPc =
    PostRecv | Connect | AwaitEstablished | PostSend | PollFirst | PollSecond | Disconnect | AwaitDisconnected | Ended

  datatype ServerPc =
    AwaitRequest | PostRecv | Accept | AwaitEstablished | PollRecv | Reply | PollSend | AwaitDisconnected | Ended

  /** What the connection manager knows of the connection. */
  datatype Link = Unrequested | Requested | Accepted | Rejected | Closed

  datatype Flight = Unsent | Posted(msg: seq<char>) | Delivered | Acknowledged

  datatype Cqe = SendDone | RecvDone(len: nat)

  /** One side: posted receives, receive buffer, its one message, the completions it ever got and how many of them
      it has polled. */
  datatype Side = Side(recvs: nat, buf: seq<char>, flight: Flight, cqes: seq<Cqe>, polled: nat)

  datatype State = State(cpc: ClientPc, c: Side, spc: ServerPc, s: Side, link: Link)

  /** The client's message, with its NUL. */
  function Hello(): (m: seq<char>)
    ensures |m| == 27
  {
    "Hello from RDMA_CM client!" + ['\0']
  }

  /** The server's answer to a message of n bytes. */
  function Answer(n: nat): seq<char> {
    "Hello from server! Your message was " + PingPong.Digits(n) + " bytes." + ['\0']
  }

  function NewSide(): Side {
    Side(0, seq(BUFFER_SIZE, (_: nat) => '\0'), Unsent, [], 0)
  }

  function Init(): State {
    State(ClientPc.PostRecv, NewSide(), AwaitRequest, NewSide(), Unrequested)
  }

  // ---------- steps ----------

  ghost predicate ClientStep(s: State, s': State) {
    match s.cpc
    case PostRecv => s' == s.(c := s.c.(recvs := s.c.recvs + 1), cpc := Connect)
    case Connect => s' == s.(link := Requested, cpc := ClientPc.AwaitEstablished)
    case AwaitEstablished =>
      || (s.link == Accepted && s' == s.(cpc := PostSend))
      || (s.link == Rejected && s' == s.(cpc := ClientPc.Ended))
    case PostSend => s' == s.(c := s.c.(flight := Posted(Hello())), cpc := PollFirst)
    case PollFirst => s.c.polled < |s.c.cqes| && s' == s.(c := s.c.(polled := s.c.polled + 1), cpc := PollSecond)
    case PollSecond => s.c.polled < |s.c.cqes| && s' == s.(c := s.c.(polled := s.c.polled + 1), cpc := Disconnect)
    case Disconnect => s' == s.(link := Closed, cpc := ClientPc.AwaitDisconnected)
    case AwaitDisconnected => s.link == Closed && s' == s.(cpc := ClientPc.Ended)
    case Ended => false
  }

  /** A setup that fails before the connection is asked for. */
  ghost predicate ClientFails(s: State, s': State) {
    (s.cpc == ClientPc.PostRecv || s.cpc == Connect) && s' == s.(c := s.c.(recvs := 0), cpc := ClientPc.Ended)
  }

  ghost predicate ServerStep(s: State, s': State) {
    match s.spc
    case AwaitRequest => s.link == Requested && s' == s.(spc := ServerPc.PostRecv)
    case PostRecv => s' == s.(s := s.s.(recvs := s.s.recvs + 1), spc := Accept)
    case Accept => s' == s.(link := Accepted, spc := ServerPc.AwaitEstablished)
    case AwaitEstablished => (s.link == Accepted || s.link == Closed) && s' == s.(spc := PollRecv)
    case PollRecv => s.s.polled < |s.s.cqes| && s' == s.(s := s.s.(polled := s.s.polled + 1), spc := Reply)
    case Reply =>
      && 0 < s.s.polled <= |s.s.cqes| && s.s.cqes[s.s.polled - 1].RecvDone?
      && s' == s.(s := s.s.(flight := Posted(Answer(s.s.cqes[s.s.polled - 1].len))), spc := PollSend)
    case PollSend =>
      && s.s.polled < |s.s.cqes|
      && s' == s.(s := s.s.(polled := s.s.polled + 1), spc := ServerPc.AwaitDisconnected)
    case AwaitDisconnected => s.link == Closed && s' == s.(spc := ServerPc.Ended)
    case Ended => false
  }

  /** A setup that fails before the connection is accepted. */
  ghost predicate ServerFails(s: State, s': State) {
    && (s.spc == ServerPc.PostRecv || s.spc == Accept)
    && s' == s.(s := s.s.(recvs := 0), link := Rejected, spc := ServerPc.Ended)
  }

  /** The message of x arrives in y's posted receive. */
  ghost predicate Deliver(x: Side, x': Side, y: Side, y': Side) {
    && x.flight.Posted? && y.recvs > 0 && |x.flight.msg| <= |y.buf|
    && x' == x.(flight := Delivered)
    && y' == y.(recvs := y.recvs - 1, buf := x.flight.msg + y.buf[|x.flight.msg|..],
                cqes := y.cqes + [RecvDone(|x.flight.msg|)])
  }

  ghost predicate Acknowledge(x: Side, x': Side) {
    x.flight == Delivered && x' == x.(flight := Acknowledged, cqes := x.cqes + [SendDone])
  }

  ghost predicate AdapterStep(s: State, s': State) {
    && s' == s.(c := s'.c, s := s'.s)
    && (|| Deliver(s.c, s'.c, s.s, s'.s) || Deliver(s.s, s'.s, s.c, s'.c)
        || (Acknowledge(s.c, s'.c) && s'.s == s.s) || (Acknowledge(s.s, s'.s) && s'.c == s.c))
  }

  ghost predicate Next(s: State, s': State) {
    ClientStep(s, s') || ClientFails(s, s') || ServerStep(s, s') || ServerFails(s, s') || AdapterStep(s, s')
  }

  ghost predicate Run(tr: seq<State>) {
    tr != [] && tr[0] == Init() && forall k :: 0 <= k < |tr| - 1 ==> Next(tr[k], tr[k + 1])
  }

  // ---------- the invariant ----------

  function ClientRank(pc: ClientPc): nat {
    match pc
    case PostRecv => 0 case Connect => 1 case AwaitEstablished => 2 case PostSend => 3 case PollFirst => 4
    case PollSecond => 5 case Disconnect => 6 case AwaitDisconnected => 7 case Ended => 8
  }

  function ServerRank(pc: ServerPc): nat {
    match pc
    case AwaitRequest => 0 case PostRecv => 1 case Accept => 2 case AwaitEstablished => 3 case PollRecv => 4
    case Reply => 5 case PollSend => 6 case AwaitDisconnected => 7 case Ended => 8
  }

  function One(b: bool): nat {
    if b then 1 else 0
  }

  predicate Arrived(f: Flight) {
    f == Delivered || f == Acknowledged
  }

  /** The completions of a side are those of its own acknowledged message and of the peer's delivered one, which is
      in the buffer. */
  ghost predicate Completions(x: Side, y: Side, msg: seq<char>) {
    && |x.cqes| == One(x.flight == Acknowledged) + One(Arrived(y.flight))
    && (x.flight == Acknowledged ==> SendDone in x.cqes)
    && (Arrived(y.flight) ==> RecvDone(|msg|) in x.cqes)
    && |x.buf| == BUFFER_SIZE && |msg| <= BUFFER_SIZE && (Arrived(y.flight) ==> msg <= x.buf)
    && (y.flight.Posted? ==> y.flight.msg == msg)
  }

  /** The client is past its setup and was not rejected. */
  ghost predicate Joined(s: State) {
    s.link == Accepted || s.link == Closed
  }

  ghost predicate Inv(s: State) {
    && Completions(s.c, s.s, Answer(|Hello()|)) && Completions(s.s, s.c, Hello())
    && (Arrived(s.c.flight) ==> s.s.cqes != [] && s.s.cqes[0] == RecvDone(|Hello()|))
    && (s.s.flight != Unsent ==> Arrived(s.c.flight))
    && Control(s)
  }

  /** Where the two processes are, and how that fits the link, the messages and the receives. */
  ghost predicate Control(s: State) {
    && (if Joined(s) then 2 <= ClientRank(s.cpc) && 3 <= ServerRank(s.spc)
        else s.c.flight == s.s.flight == Unsent && s.c.polled == s.s.polled == 0)
    && (Joined(s) ==>
          && (s.link == Closed <==> ClientRank(s.cpc) >= 7)
          && (s.spc == ServerPc.Ended ==> s.link == Closed)
          && (s.c.flight == Unsent <==> ClientRank(s.cpc) <= 3)
          && (s.s.flight == Unsent <==> ServerRank(s.spc) <= 5)
          && s.c.polled == One(ClientRank(s.cpc) >= 5) + One(ClientRank(s.cpc) >= 6) <= |s.c.cqes|
          && s.s.polled == One(ServerRank(s.spc) >= 5) + One(ServerRank(s.spc) >= 7) <= |s.s.cqes|
          && s.c.recvs == One(!Arrived(s.s.flight)) && s.s.recvs == One(!Arrived(s.c.flight)))
    && (!Joined(s) ==>
          && (s.link == Unrequested ==> s.spc == AwaitRequest && (ClientRank(s.cpc) <= 1 || s.cpc == ClientPc.Ended))
          && (s.link == Requested ==> s.cpc == ClientPc.AwaitEstablished && ServerRank(s.spc) <= 2)
          && (s.link == Rejected ==>
                (s.cpc == ClientPc.AwaitEstablished || s.cpc == ClientPc.Ended) && s.spc == ServerPc.Ended)
          && (s.cpc == Connect || s.cpc == ClientPc.AwaitEstablished ==> s.c.recvs == 1)
          && (s.cpc == ClientPc.PostRecv ==> s.c.recvs == 0)
          && s.s.recvs == One(s.spc == Accept))
  }

  lemma InitInv()
    ensures Inv(Init())
  {
    AnswerIs();
  }

  lemma FailureInv(s: State, s': State)
    requires Inv(s) && (ClientFails(s, s') || ServerFails(s, s'))
    ensures Inv(s')
  {
    hide Answer, Hello;
  }

  lemma ClientInv(s: State, s': State)
    requires Inv(s) && ClientStep(s, s')
    ensures Inv(s')
  {
    hide Answer, Hello;
  }

  lemma ServerInv(s: State, s': State)
    requires Inv(s) && ServerStep(s, s')
    ensures Inv(s')
  {
    hide Answer, Hello;
  }

  lemma HelloArrives(s: State, s': State)
    requires Inv(s) && s' == s.(c := s'.c, s := s'.s) && Deliver(s.c, s'.c, s.s, s'.s)
    ensures Inv(s')
  {
  }

  lemma AnswerArrives(s: State, s': State)
    requires Inv(s) && s' == s.(c := s'.c, s := s'.s) && Deliver(s.s, s'.s, s.c, s'.c)
    ensures Inv(s')
  {
  }

  lemma AcknowledgeInv(s: State, s': State)
    requires Inv(s) && s' == s.(c := s'.c, s := s'.s)
    requires (Acknowledge(s.c, s'.c) && s'.s == s.s) || (Acknowledge(s.s, s'.s) && s'.c == s.c)
    ensures Inv(s')
  {
  }

  lemma NextInv(s: State, s': State)
    requires Inv(s) && Next(s, s')
    ensures Inv(s')
  {
    hide Inv;
    if ClientStep(s, s') {
      ClientInv(s, s');
    } else if ServerStep(s, s') {
      ServerInv(s, s');
    } else if ClientFails(s, s') || ServerFails(s, s') {
      FailureInv(s, s');
    } else if Deliver(s.c, s'.c, s.s, s'.s) && s' == s.(c := s'.c, s := s'.s) {
      HelloArrives(s, s');
    } else if Deliver(s.s, s'.s, s.c, s'.c) && s' == s.(c := s'.c, s := s'.s) {
      AnswerArrives(s, s');
    } else {
      AcknowledgeInv(s, s');
    }
  }

  lemma {:induction false} RunInv(tr: seq<State>, k: nat)
    requires Run(tr) && k < |tr|
    ensures Inv(tr[k])
  {
    hide Inv, Next, Init;
    if k == 0 {
      InitInv();
    } else {
      RunInv(tr, k - 1);
      NextInv(tr[k - 1], tr[k]);
    }
  }

  // ---------- what every run does ----------

  /** No message of either side ever meets an empty receive queue. */
  lemma NeverReceiverNotReady(tr: seq<State>, k: nat)
    requires Run(tr) && k < |tr|
    ensures tr[k].c.flight.Posted? ==> tr[k].s.recvs > 0
    ensures tr[k].s.flight.Posted? ==> tr[k].c.recvs > 0
  {
    RunInv(tr, k);
  }

  /** Once the client has polled twice, its message is acknowledged and the answer is in its buffer, in whichever
      order the two completions came. */
  lemma TwoPolls(tr: seq<State>, k: nat)
    requires Run(tr) && k < |tr| && 6 <= ClientRank(tr[k].cpc) <= 7
    ensures tr[k].c.flight == Acknowledged && Arrived(tr[k].s.flight)
    ensures tr[k].c.cqes == [SendDone, RecvDone(46)] || tr[k].c.cqes == [RecvDone(46), SendDone]
    ensures "Hello from server! Your message was 27 bytes." + ['\0'] <= tr[k].c.buf
  {
    RunInv(tr, k);
    AnswerIs();
    hide Answer, Hello;
  }

  lemma CompletionsGrow(s: State, s': State)
    requires Next(s, s')
    ensures s.c.cqes <= s'.c.cqes && |s'.c.cqes| <= |s.c.cqes| + 1
  {
    hide Answer, Hello;
  }

  /** The client's message was acknowledged at a moment, up to k, at which the answer had not arrived. */
  ghost predicate AcknowledgedFirst(tr: seq<State>, k: nat) {
    exists j :: 0 <= j <= k && j < |tr| && tr[j].c.flight == Acknowledged && !Arrived(tr[j].s.flight)
  }

  /** Which completion came first. */
  lemma OnlyCompletion(s: State)
    requires Inv(s) && |s.c.cqes| == 1
    ensures s.c.cqes[0] == SendDone <==> s.c.flight == Acknowledged && !Arrived(s.s.flight)
  {
    hide Answer, Hello;
  }

  /** The completion that the client polls first is that of its send iff that is acknowledged before the answer
      arrives. */
  lemma {:induction false} FirstPollIff(tr: seq<State>, k: nat)
    requires Run(tr) && k < |tr|
    ensures tr[k].c.cqes == [] ==> !AcknowledgedFirst(tr, k)
    ensures tr[k].c.cqes != [] ==> (tr[k].c.cqes[0] == SendDone <==> AcknowledgedFirst(tr, k))
    ensures tr[k].c.polled > 0 ==> tr[k].c.cqes != []
  {
    RunInv(tr, k);
    var s := tr[k];
    if k > 0 {
      FirstPollIff(tr, k - 1);
      CompletionsGrow(tr[k - 1], s);
      if AcknowledgedFirst(tr, k - 1) {
        var j :| 0 <= j <= k - 1 && tr[j].c.flight == Acknowledged && !Arrived(tr[j].s.flight);
        assert AcknowledgedFirst(tr, k);
      }
    }
    NoneOrOne(s);
    hide Inv, Next;
    if |s.c.cqes| == 1 {
      OnlyCompletion(s);
    }
    assert AcknowledgedFirst(tr, k) <==>
      (k > 0 && AcknowledgedFirst(tr, k - 1)) || (s.c.flight == Acknowledged && !Arrived(s.s.flight));
  }

  lemma NoneOrOne(s: State)
    requires Inv(s)
    ensures s.c.flight == Acknowledged && !Arrived(s.s.flight) ==> |s.c.cqes| == 1
    ensures s.c.polled <= |s.c.cqes|
  {
    hide Answer, Hello;
  }

  /** The server's first poll is the receive of the client's message, and it answers with the length of that. */
  lemma ServerReadsHello(tr: seq<State>, k: nat)
    requires Run(tr) && k < |tr| && 5 <= ServerRank(tr[k].spc) <= 7
    ensures [RecvDone(27)] <= tr[k].s.cqes && "Hello from RDMA_CM client!" + ['\0'] <= tr[k].s.buf
    ensures var answer := "Hello from server! Your message was 27 bytes." + ['\0'];
      && (tr[k].s.flight.Posted? ==> tr[k].s.flight.msg == answer)
      && (Arrived(tr[k].s.flight) ==> answer <= tr[k].c.buf)
  {
    RunInv(tr, k);
    AnswerIs();
    hide Answer;
  }

  lemma AnswerIs()
    ensures |Hello()| == 27 && Answer(27) == "Hello from server! Your message was 27 bytes." + ['\0']
    ensures |Answer(27)| == 46
  {
    assert PingPong.Digits(27) == "27";
  }

  // ---------- every run ends ----------

  ghost predicate CanStep(s: State) {
    exists s' :: Next(s, s')
  }

  /** The client is through; the server too, or it was never asked. */
  ghost predicate Final(s: State) {
    s.cpc == ClientPc.Ended && (s.spc == ServerPc.Ended || (s.spc == AwaitRequest && s.link == Unrequested))
  }

  lemma AdaptersCan(s: State)
    requires Inv(s) && (s.c.flight.Posted? || s.c.flight == Delivered || s.s.flight.Posted? || s.s.flight == Delivered)
    ensures CanStep(s)
  {
    hide Answer, Hello;
    if s.c.flight.Posted? {
      var m := s.c.flight.msg;
      var y := s.s.(recvs := s.s.recvs - 1, buf := m + s.s.buf[|m|..], cqes := s.s.cqes + [RecvDone(|m|)]);
      assert Next(s, s.(c := s.c.(flight := Delivered), s := y));
    } else if s.s.flight.Posted? {
      var m := s.s.flight.msg;
      var y := s.c.(recvs := s.c.recvs - 1, buf := m + s.c.buf[|m|..], cqes := s.c.cqes + [RecvDone(|m|)]);
      assert Next(s, s.(s := s.s.(flight := Delivered), c := y));
    } else if s.c.flight == Delivered {
      assert Next(s, s.(c := s.c.(flight := Acknowledged, cqes := s.c.cqes + [SendDone])));
    } else {
      assert Next(s, s.(s := s.s.(flight := Acknowledged, cqes := s.s.cqes + [SendDone])));
    }
  }

  /** The next state of the client, if it is not waiting. */
  function ClientMove(s: State): State {
    match s.cpc
    case PostRecv => s.(c := s.c.(recvs := s.c.recvs + 1), cpc := Connect)
    case Connect => s.(link := Requested, cpc := ClientPc.AwaitEstablished)
    case AwaitEstablished => if s.link == Accepted then s.(cpc := PostSend) else s.(cpc := ClientPc.Ended)
    case PostSend => s.(c := s.c.(flight := Posted(Hello())), cpc := PollFirst)
    case PollFirst => s.(c := s.c.(polled := s.c.polled + 1), cpc := PollSecond)
    case PollSecond => s.(c := s.c.(polled := s.c.polled + 1), cpc := Disconnect)
    case Disconnect => s.(link := Closed, cpc := ClientPc.AwaitDisconnected)
    case AwaitDisconnected => s.(cpc := ClientPc.Ended)
    case Ended => s
  }

  function ServerMove(s: State): State {
    match s.spc
    case AwaitRequest => s.(spc := ServerPc.PostRecv)
    case PostRecv => s.(s := s.s.(recvs := s.s.recvs + 1), spc := Accept)
    case Accept => s.(link := Accepted, spc := ServerPc.AwaitEstablished)
    case AwaitEstablished => s.(spc := PollRecv)
    case PollRecv => s.(s := s.s.(polled := s.s.polled + 1), spc := Reply)
    case Reply =>
      if 0 < s.s.polled <= |s.s.cqes| && s.s.cqes[s.s.polled - 1].RecvDone?
      then s.(s := s.s.(flight := Posted(Answer(s.s.cqes[s.s.polled - 1].len))), spc := PollSend)
      else s
    case PollSend => s.(s := s.s.(polled := s.s.polled + 1), spc := ServerPc.AwaitDisconnected)
    case AwaitDisconnected => s.(spc := ServerPc.Ended)
    case Ended => s
  }

  /** No state that a run can reach is stuck before both sides are through. */
  lemma NoDeadlock(s: State)
    requires Inv(s) && !Final(s)
    ensures CanStep(s)
  {
    if s.c.flight.Posted? || s.c.flight == Delivered || s.s.flight.Posted? || s.s.flight == Delivered {
      AdaptersCan(s);
    } else if ClientStep(s, ClientMove(s)) {
      assert Next(s, ClientMove(s));
    } else {
      hide Answer, Hello;
      assert ServerStep(s, ServerMove(s));
      assert Next(s, ServerMove(s));
    }
  }

  function Flying(f: Flight): nat {
    match f case Unsent => 0 case Posted(_) => 2 case Delivered => 1 case Acknowledged => 0
  }

  function Measure(s: State): nat {
    3 * (8 - ClientRank(s.cpc)) + 3 * (8 - ServerRank(s.spc)) + Flying(s.c.flight) + Flying(s.s.flight)
  }

  lemma ProcessDecreases(s: State, s': State)
    requires ClientStep(s, s') || ClientFails(s, s') || ServerStep(s, s') || ServerFails(s, s')
    requires (s.cpc == PostSend ==> s.c.flight == Unsent) && (s.spc == Reply ==> s.s.flight == Unsent)
    ensures Measure(s') < Measure(s)
  {
    hide Answer, Hello;
  }

  /** Every step uses up some of a bound, so no run has more than 48 steps. */
  lemma NextDecreases(s: State, s': State)
    requires Next(s, s') && Inv(s)
    ensures Measure(s') < Measure(s)
  {
    hide Answer, Hello, Completions, ClientStep, ClientFails, ServerStep, ServerFails;
    if !AdapterStep(s, s') {
      hide AdapterStep;
      ProcessDecreases(s, s');
    }
  }

  lemma {:induction false} RunLength(tr: seq<State>, k: nat)
    requires Run(tr) && k < |tr|
    ensures k + Measure(tr[k]) <= 48
  {
    hide Inv, Next;
    if k == 0 {
      assert Measure(Init()) == 48;
    } else {
      RunLength(tr, k - 1);
      RunInv(tr, k - 1);
      NextDecreases(tr[k - 1], tr[k]);
    }
  }

  /** A run that cannot go on was given up before the connection was accepted, or has delivered and acknowledged both
      messages, polled every completion and used both receives. */
  lemma EndOfRun(tr: seq<State>)
    requires Run(tr) && !CanStep(tr[|tr| - 1])
    ensures Final(tr[|tr| - 1])
    ensures var s := tr[|tr| - 1]; s.link == Closed || s.link == Rejected || s.link == Unrequested
    ensures var s := tr[|tr| - 1]; s.link == Closed ==>
      && s.c.flight == s.s.flight == Acknowledged && s.c.recvs == s.s.recvs == 0
      && s.c.polled == |s.c.cqes| == 2 && s.s.polled == |s.s.cqes| == 2
  {
    var s := tr[|tr| - 1];
    RunInv(tr, |tr| - 1);
    if !Final(s) {
      NoDeadlock(s);
    }
    if s.c.flight.Posted? || s.c.flight == Delivered || s.s.flight.Posted? || s.s.flight == Delivered {
      AdaptersCan(s);
    }
    hide Answer, Hello, Next;
  }

  // ---------- the first poll need not be the send ----------

  lemma Extend(tr: seq<State>, s': State) returns (longer: seq<State>)
    requires Run(tr) && tr != [] && Next(tr[|tr| - 1], s')
    ensures Run(longer) && longer != [] && longer[|longer| - 1] == s'
  {
    longer := tr + [s'];
  }

  /** Both receives are posted and the connection is accepted. */
  lemma SetUpRun() returns (tr: seq<State>)
    ensures Run(tr) && tr != []
    ensures var one := NewSide().(recvs := 1);
      tr[|tr| - 1] == State(PostSend, one, ServerPc.AwaitEstablished, one, Accepted)
  {
    tr := [Init()];
    tr := Extend(tr, ClientMove(tr[|tr| - 1]));
    tr := Extend(tr, ClientMove(tr[|tr| - 1]));
    tr := Extend(tr, ServerMove(tr[|tr| - 1]));
    tr := Extend(tr, ServerMove(tr[|tr| - 1]));
    tr := Extend(tr, ServerMove(tr[|tr| - 1]));
    tr := Extend(tr, ClientMove(tr[|tr| - 1]));
  }

  /** The client's message has arrived and is not yet acknowledged; the server has polled it. */
  lemma HelloRun() returns (tr: seq<State>)
    ensures Run(tr) && tr != []
    ensures var one := NewSide().(recvs := 1);
      && |one.buf| == BUFFER_SIZE && one.cqes == [] && one.polled == 0
      && tr[|tr| - 1] == State(PollFirst, one.(flight := Delivered), Reply,
           one.(recvs := 0, buf := Hello() + one.buf[27..], cqes := [RecvDone(27)], polled := 1), Accepted)
  {
    assert |NewSide().buf| == BUFFER_SIZE && NewSide().cqes == [] && NewSide().polled == 0;
    hide Hello, Answer, NewSide, Run;
    tr := SetUpRun();
    var one := NewSide().(recvs := 1);
    tr := Extend(tr, ClientMove(tr[|tr| - 1]));
    var s := one.(recvs := 0, buf := Hello() + one.buf[27..], cqes := [RecvDone(27)]);
    tr := Extend(tr, State(PollFirst, one.(flight := Delivered), ServerPc.AwaitEstablished, s, Accepted));
    tr := Extend(tr, ServerMove(tr[|tr| - 1]));
    tr := Extend(tr, ServerMove(tr[|tr| - 1]));
  }

  /** The poll after which the client reports its message as sent may have been that of the answer: in some run the
      message is not yet acknowledged then. */
  lemma FirstPollMayBeAnswer() returns (tr: seq<State>)
    ensures Run(tr) && tr != []
    ensures var s := tr[|tr| - 1];
      s.cpc == PollSecond && s.c.cqes == [RecvDone(46)] && s.c.flight == Delivered
  {
    AnswerIs();
    hide Hello, Answer, NewSide, Run;
    tr := HelloRun();
    tr := Extend(tr, ServerMove(tr[|tr| - 1]));
    var s, m := tr[|tr| - 1], Answer(27);
    var c' := s.c.(recvs := 0, buf := m + s.c.buf[|m|..], cqes := [RecvDone(|m|)]);
    tr := Extend(tr, s.(c := c', s := s.s.(flight := Delivered)));
    tr := Extend(tr, ClientMove(tr[|tr| - 1]));
  }
}
