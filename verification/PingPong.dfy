/** The ping-pong loop of a client and a server over one pair of connected queue pairs: every step of either
    process or of the adapters, in any order.

    Each process has a single buffer that it sends from and receives into.  A send completes when the peer has
    acknowledged it; the acknowledgement may arrive after the peer's answer.  A message is delivered only into a
    posted receive, and waits for one as long as it takes (receiver-not-ready retries are unlimited).  A poll
    that finds the completion queue empty changes nothing and is not a step. */
module PingPong {

  datatype Cqe = SendDone | RecvDone

  datatype ClientPc = Fill | PostRecv | PostSend | PollFirst | PollSecond

  datatype ServerPc = AwaitPost | PollRecv | Reply | PollSend

  /** One side: finished iterations, the buffer, posted receives, sends posted but not yet complete (true once
      delivered), the completion queue, and how many completions of each kind the process has consumed. */
  datatype Side = Side(iter: nat, buf: seq<char>, recvs: nat, sends: seq<bool>, cq: seq<Cqe>,
                       sendsSeen: nat, recvsSeen: nat)

  datatype State = State(cpc: ClientPc, c: Side, spc: ServerPc, s: Side)

  /** Iterations and message size, the same on both sides. */
  datatype Config = Config(iters: nat, size: nat)

  // ---------- the message ----------

  function Digit(n: nat): (c: char)
    requires n < 10
    ensures '0' <= c <= '9' && c as int - '0' as int == n
  {
    "0123456789"[n]
  }

  function Digits(n: nat): string {
    (if n < 10 then [] else Digits(n / 10)) + [Digit(n % 10)]
  }

  function Padded(s: string, width: nat): string
    decreases width - |s|
  {
    if |s| >= width then s else Padded("0" + s, width)
  }

  /** The text that the client formats in iteration i. */
  function PingText(i: nat): string {
    "ping-" + Padded(Digits(i), 6)
  }

  /** snprintf into the whole buffer: the text, cut to fit, and a NUL; the rest stays as it was. */
  function Print(buf: seq<char>, text: string): (r: seq<char>)
    ensures |r| == |buf|
  {
    if buf == [] then buf
    else
      var n := if |text| < |buf| then |text| else |buf| - 1;
      text[..n] + ['\0'] + buf[n + 1..]
  }

  /** The client's buffer after it has filled it k times. */
  function Ping(size: nat, k: nat): (r: seq<char>)
    ensures |r| == size
  {
    if k == 0 then seq(size, (_: nat) => '\0') else Print(Ping(size, k - 1), PingText(k - 1))
  }

  /** The number that a string of decimal digits stands for. */
  function Value(s: string): int {
    if s == [] then 0 else 10 * Value(s[..|s| - 1]) + (s[|s| - 1] as int - '0' as int)
  }

  ghost predicate Decimal(s: string) {
    forall j :: 0 <= j < |s| ==> '0' <= s[j] <= '9'
  }

  /** text is "ping-" and the number i in at least six decimal digits, with no more than six unless it needs them. */
  ghost predicate IsPing(text: string, i: nat) {
    && |text| >= 11 && text[..5] == "ping-" && Decimal(text[5..]) && Value(text[5..]) == i
    && (|text| > 11 ==> text[5] != '0')
  }

  /** buf holds as much of the text as leaves room for a NUL, and zeros up to its end. */
  ghost predicate Holds(buf: seq<char>, text: string) {
    forall j :: 0 <= j < |buf| ==> buf[j] == if j < |text| && j < |buf| - 1 then text[j] else '\0'
  }

  lemma {:induction false} DigitsValue(n: nat)
    ensures Digits(n) != [] && Decimal(Digits(n)) && Value(Digits(n)) == n
    ensures |Digits(n)| > 1 ==> Digits(n)[0] != '0'
  {
    hide Digit;
    var d := Digits(n);
    if n >= 10 {
      DigitsValue(n / 10);
      assert d[..|d| - 1] == Digits(n / 10);
      assert |Digits(n / 10)| == 1 ==> Digits(n / 10)[..0] == [];
    } else {
      assert d[..0] == [];
    }
  }

  lemma DigitsLength(n: nat)
    ensures |Digits(n)| == 1 + if n < 10 then 0 else |Digits(n / 10)|
  {
  }

  lemma {:induction false} DigitsGrow(n: nat)
    ensures |Digits(n)| <= |Digits(n + 1)|
  {
    DigitsLength(n);
    DigitsLength(n + 1);
    hide Digits;
    if n >= 10 {
      assert (n + 1) / 10 == n / 10 || (n + 1) / 10 == n / 10 + 1;
      DigitsGrow(n / 10);
    }
  }

  lemma {:induction false} LeadingZero(s: string)
    ensures Value("0" + s) == Value(s)
  {
    var t := "0" + s;
    if s == [] {
      assert t[..0] == [];
    } else {
      assert t[..|t| - 1] == "0" + s[..|s| - 1];
      LeadingZero(s[..|s| - 1]);
    }
  }

  lemma {:induction false} PaddedValue(s: string, width: nat)
    requires Decimal(s)
    ensures var p := Padded(s, width);
            && Decimal(p) && Value(p) == Value(s)
            && |p| == (if |s| < width then width else |s|) && (|s| >= width ==> p == s)
    decreases width - |s|
  {
    if |s| < width {
      LeadingZero(s);
      PaddedValue("0" + s, width);
    }
  }

  lemma PingTextIs(i: nat)
    ensures IsPing(PingText(i), i) && |PingText(i)| <= |PingText(i + 1)|
  {
    hide Digits, Value, Padded;
    DigitsValue(i);
    DigitsValue(i + 1);
    DigitsGrow(i);
    PaddedValue(Digits(i), 6);
    PaddedValue(Digits(i + 1), 6);
    assert PingText(i)[5..] == Padded(Digits(i), 6);
  }

  /** The buffer that has been filled k + 1 times holds the ping of iteration k: no later text is shorter. */
  lemma {:induction false} PingHolds(size: nat, k: nat)
    ensures Holds(Ping(size, k + 1), PingText(k))
  {
    hide PingText;
    if k > 0 {
      PingHolds(size, k - 1);
      PingTextIs(k - 1);
      hide IsPing;
      PrintOver(Ping(size, k), PingText(k - 1), PingText(k));
    } else {
      PrintOver(Ping(size, 0), [], PingText(0));
    }
  }

  lemma PrintOver(buf: seq<char>, before: string, text: string)
    requires Holds(buf, before) && |before| <= |text|
    ensures Holds(Print(buf, text), text)
  {
  }

  // ---------- steps ----------

  /** poll_completion takes the oldest completion. */
  function Polled(x: Side): Side
    requires x.cq != []
  {
    var y := x.(cq := x.cq[1..]);
    if x.cq[0].SendDone? then y.(sendsSeen := x.sendsSeen + 1) else y.(recvsSeen := x.recvsSeen + 1)
  }

  ghost predicate ClientStep(cfg: Config, s: State, s': State) {
    var c := s.c;
    s.c.iter < cfg.iters &&
    match s.cpc
    case Fill => s' == s.(c := c.(buf := Print(c.buf, PingText(c.iter))), cpc := PostRecv)
    case PostRecv => s' == s.(c := c.(recvs := c.recvs + 1), cpc := PostSend)
    case PostSend => s' == s.(c := c.(sends := c.sends + [false]), cpc := PollFirst)
    case PollFirst => c.cq != [] && s' == s.(c := Polled(c), cpc := PollSecond)
    case PollSecond => c.cq != [] && s' == s.(c := Polled(c).(iter := c.iter + 1), cpc := Fill)
  }

  ghost predicate ServerStep(cfg: Config, s: State, s': State) {
    var x := s.s;
    s.s.iter < cfg.iters &&
    match s.spc
    case AwaitPost => s' == s.(s := x.(recvs := x.recvs + 1), spc := PollRecv)
    case PollRecv => x.cq != [] && s' == s.(s := Polled(x), spc := Reply)
    case Reply => s' == s.(s := x.(sends := x.sends + [false]), spc := PollSend)
    case PollSend => x.cq != [] && s' == s.(s := Polled(x).(iter := x.iter + 1), spc := AwaitPost)
  }

  /** The oldest undelivered send of x is k. */
  ghost predicate FirstUndelivered(x: Side, k: nat) {
    k < |x.sends| && !x.sends[k] && forall j :: 0 <= j < k ==> x.sends[j]
  }

  /** The adapters copy the buffer of x into a receive posted by y. */
  ghost predicate Deliver(x: Side, x': Side, y: Side, y': Side) {
    && y.recvs > 0 && y' == y.(buf := x.buf, recvs := y.recvs - 1, cq := y.cq + [RecvDone])
    && exists k: nat :: FirstUndelivered(x, k) && x' == x.(sends := x.sends[k := true])
  }

  /** The oldest send of x has been delivered and its acknowledgement arrives. */
  ghost predicate Acknowledge(x: Side, x': Side) {
    x.sends != [] && x.sends[0] && x' == x.(sends := x.sends[1..], cq := x.cq + [SendDone])
  }

  ghost predicate Next(cfg: Config, s: State, s': State) {
    || ClientStep(cfg, s, s')
    || ServerStep(cfg, s, s')
    || (Deliver(s.c, s'.c, s.s, s'.s) && s'.cpc == s.cpc && s'.spc == s.spc)
    || (Deliver(s.s, s'.s, s.c, s'.c) && s'.cpc == s.cpc && s'.spc == s.spc)
    || (Acknowledge(s.c, s'.c) && s' == s.(c := s'.c))
    || (Acknowledge(s.s, s'.s) && s' == s.(s := s'.s))
  }

  function Init(cfg: Config): State {
    var side := Side(0, Ping(cfg.size, 0), 0, [], [], 0, 0);
    State(Fill, side, AwaitPost, side)
  }

  ghost predicate Run(cfg: Config, tr: seq<State>) {
    && tr != [] && tr[0] == Init(cfg)
    && forall k :: 0 <= k < |tr| - 1 ==> Next(cfg, tr[k], tr[k + 1])
  }

  /** Both loops have ended and nothing is left in any queue. */
  ghost predicate Final(cfg: Config, s: State) {
    && s.c.iter == s.s.iter == cfg.iters
    && s.c.sends == s.s.sends == [] && s.c.cq == s.s.cq == [] && s.c.recvs == s.s.recvs == 0
  }

  // ---------- the invariant ----------

  function ClientRank(pc: ClientPc): nat {
    match pc case Fill => 0 case PostRecv => 1 case PostSend => 2 case PollFirst => 3 case PollSecond => 4
  }

  function ServerRank(pc: ServerPc): nat {
    match pc case AwaitPost => 0 case PollRecv => 1 case Reply => 2 case PollSend => 3
  }

  function One(b: bool): nat {
    if b then 1 else 0
  }

  /** Messages posted so far, those of them delivered, and those of them acknowledged. */
  function PingsPosted(s: State): nat { s.c.iter + One(ClientRank(s.cpc) >= 3) }
  function PongsPosted(s: State): nat { s.s.iter + One(s.spc == PollSend) }
  function PingsDelivered(s: State): int { PingsPosted(s) - One(s.c.sends == [false]) }
  function PongsDelivered(s: State): int { PongsPosted(s) - One(s.s.sends == [false]) }

  /** The completions that side x has been given are accounted for. */
  ghost predicate Counted(x: Side, acked: int, received: int, recvsPosted: nat) {
    && x.sendsSeen + multiset(x.cq)[SendDone] == acked
    && x.recvsSeen + multiset(x.cq)[RecvDone] == received
    && x.recvs == recvsPosted - received
    && (x.sends == [] || x.sends == [true] || x.sends == [false])
  }

  ghost predicate Inv(cfg: Config, s: State) {
    && s.c.iter <= cfg.iters && (s.c.iter == cfg.iters ==> s.cpc == Fill)
    && s.s.iter <= cfg.iters && (s.s.iter == cfg.iters ==> s.spc == AwaitPost)
    && Counted(s.c, PingsPosted(s) - |s.c.sends|, PongsDelivered(s), s.c.iter + One(ClientRank(s.cpc) >= 2))
    && Counted(s.s, PongsPosted(s) - |s.s.sends|, PingsDelivered(s), s.s.iter + One(ServerRank(s.spc) >= 1))
    && (s.cpc != PollSecond ==> s.c.sendsSeen == s.c.recvsSeen == s.c.iter)
    && (s.cpc == PollSecond ==>
          s.c.sendsSeen + s.c.recvsSeen == 2 * s.c.iter + 1 && s.c.iter <= s.c.sendsSeen <= s.c.iter + 1)
    && s.s.sendsSeen == s.s.iter && s.s.recvsSeen == s.s.iter + One(ServerRank(s.spc) >= 2)
    && s.c.buf == Ping(cfg.size, s.c.iter + One(ClientRank(s.cpc) >= 1))
    && PingsDelivered(s) >= 0 && s.s.buf == Ping(cfg.size, PingsDelivered(s))
  }

  lemma InitInv(cfg: Config)
    ensures Inv(cfg, Init(cfg))
  {
  }

  lemma PolledCounts(x: Side)
    requires x.cq != []
    ensures var y := Polled(x);
            && y.sendsSeen + multiset(y.cq)[SendDone] == x.sendsSeen + multiset(x.cq)[SendDone]
            && y.recvsSeen + multiset(y.cq)[RecvDone] == x.recvsSeen + multiset(x.cq)[RecvDone]
            && y.sendsSeen + y.recvsSeen == x.sendsSeen + x.recvsSeen + 1
            && y.sendsSeen >= x.sendsSeen && y.recvsSeen >= x.recvsSeen
            && y.iter == x.iter && y.buf == x.buf && y.recvs == x.recvs && y.sends == x.sends
  {
    assert x.cq == [x.cq[0]] + x.cq[1..];
  }

  lemma FirstPollInv(cfg: Config, s: State, s': State)
    requires Inv(cfg, s) && ClientStep(cfg, s, s') && s.cpc == PollFirst
    ensures Inv(cfg, s')
  {
    hide Ping, Polled;
    PolledCounts(s.c);
  }

  lemma SecondPollInv(cfg: Config, s: State, s': State)
    requires Inv(cfg, s) && ClientStep(cfg, s, s') && s.cpc == PollSecond
    ensures Inv(cfg, s')
  {
    hide Ping, Polled;
    PolledCounts(s.c);
  }

  lemma ClientPostInv(cfg: Config, s: State, s': State)
    requires Inv(cfg, s) && ClientStep(cfg, s, s') && (s.cpc == PostRecv || s.cpc == PostSend)
    ensures Inv(cfg, s')
  {
    hide Ping;
    NoSendBeforePost(cfg, s);
  }

  lemma ClientFillInv(cfg: Config, s: State, s': State)
    requires Inv(cfg, s) && ClientStep(cfg, s, s') && s.cpc == Fill
    ensures Inv(cfg, s')
  {
    PingStep(cfg.size, s.c.iter);
    hide Ping, Print, PingText;
  }

  lemma ClientInv(cfg: Config, s: State, s': State)
    requires Inv(cfg, s) && ClientStep(cfg, s, s')
    ensures Inv(cfg, s')
  {
    hide Inv, ClientStep;
    match s.cpc
    case PollFirst => FirstPollInv(cfg, s, s');
    case PollSecond => SecondPollInv(cfg, s, s');
    case PostRecv => ClientPostInv(cfg, s, s');
    case PostSend => ClientPostInv(cfg, s, s');
    case Fill => ClientFillInv(cfg, s, s');
  }

  lemma PingStep(size: nat, k: nat)
    ensures Ping(size, k + 1) == Print(Ping(size, k), PingText(k))
  {
  }

  lemma ServerPollInv(cfg: Config, s: State, s': State)
    requires Inv(cfg, s) && ServerStep(cfg, s, s') && (s.spc == PollRecv || s.spc == PollSend)
    ensures Inv(cfg, s')
  {
    hide Ping, Polled;
    PolledCounts(s.s);
  }

  lemma ServerPostInv(cfg: Config, s: State, s': State)
    requires Inv(cfg, s) && ServerStep(cfg, s, s') && (s.spc == AwaitPost || s.spc == Reply)
    ensures Inv(cfg, s')
  {
    hide Ping;
  }

  lemma ServerInv(cfg: Config, s: State, s': State)
    requires Inv(cfg, s) && ServerStep(cfg, s, s')
    ensures Inv(cfg, s')
  {
    hide Inv, ServerStep;
    if s.spc == PollRecv || s.spc == PollSend {
      ServerPollInv(cfg, s, s');
    } else {
      ServerPostInv(cfg, s, s');
    }
  }

  /** The server has consumed everything when a pong is under way, so both sides are in the same iteration. */
  lemma PongInv(cfg: Config, s: State, s': State)
    requires Inv(cfg, s) && s'.cpc == s.cpc && s'.spc == s.spc && Deliver(s.s, s'.s, s.c, s'.c)
    ensures Inv(cfg, s') && s'.c.buf == s.c.buf
  {
    hide Ping;
    OnlySend(s.s, s'.s);
    assert s.c.iter == s.s.iter;
    hide FirstUndelivered;
  }

  lemma OnlySend(x: Side, x': Side)
    requires x.sends == [] || x.sends == [true] || x.sends == [false]
    requires exists k: nat :: FirstUndelivered(x, k) && x' == x.(sends := x.sends[k := true])
    ensures x.sends == [false] && x' == x.(sends := [true])
  {
  }

  lemma PingInv(cfg: Config, s: State, s': State)
    requires Inv(cfg, s) && s'.cpc == s.cpc && s'.spc == s.spc && Deliver(s.c, s'.c, s.s, s'.s)
    ensures Inv(cfg, s') && s.s.sends == []
  {
    hide Ping;
  }

  lemma PingAcknowledgedInv(cfg: Config, s: State, s': State)
    requires Inv(cfg, s) && Acknowledge(s.c, s'.c) && s' == s.(c := s'.c)
    ensures Inv(cfg, s')
  {
    hide Ping;
    assert s.c.sends == [true] && s'.c.sends == [];
  }

  lemma PongAcknowledgedInv(cfg: Config, s: State, s': State)
    requires Inv(cfg, s) && Acknowledge(s.s, s'.s) && s' == s.(s := s'.s)
    ensures Inv(cfg, s')
  {
    hide Ping;
    assert s.s.sends == [true] && s'.s.sends == [];
  }

  lemma NextInv(cfg: Config, s: State, s': State)
    requires Inv(cfg, s) && Next(cfg, s, s')
    ensures Inv(cfg, s')
  {
    hide Inv;
    if ClientStep(cfg, s, s') {
      ClientInv(cfg, s, s');
    } else if ServerStep(cfg, s, s') {
      ServerInv(cfg, s, s');
    } else if Deliver(s.c, s'.c, s.s, s'.s) && s'.cpc == s.cpc && s'.spc == s.spc {
      PingInv(cfg, s, s');
    } else if Deliver(s.s, s'.s, s.c, s'.c) && s'.cpc == s.cpc && s'.spc == s.spc {
      PongInv(cfg, s, s');
    } else if Acknowledge(s.c, s'.c) && s' == s.(c := s'.c) {
      PingAcknowledgedInv(cfg, s, s');
    } else {
      PongAcknowledgedInv(cfg, s, s');
    }
  }

  lemma {:induction false} RunInv(cfg: Config, tr: seq<State>, k: nat)
    requires Run(cfg, tr) && k < |tr|
    ensures Inv(cfg, tr[k])
  {
    hide Inv, Next;
    if k == 0 {
      InitInv(cfg);
    } else {
      RunInv(cfg, tr, k - 1);
      NextInv(cfg, tr[k - 1], tr[k]);
    }
  }

  // ---------- what every run does ----------

  /** Undelivered messages of one side. */
  function Undelivered(x: Side): nat {
    |x.sends| - multiset(x.sends)[true]
  }

  /** Token passing: at every moment at most one message is undelivered, the iterations of the two sides differ by
      at most one, a side between two iterations has consumed one completion of each kind per iteration, and no
      queue ever holds more than one request or one completion of each kind.  Between two client iterations the
      client's buffer holds the ping of the last one, the text that is returned. */
  lemma TokenPassing(cfg: Config, tr: seq<State>, k: nat) returns (text: string)
    requires Run(cfg, tr) && k < |tr|
    ensures AtMostOneToken(tr[k])
    ensures tr[k].cpc == Fill ==> tr[k].c.sendsSeen == tr[k].c.recvsSeen == tr[k].c.iter
    ensures tr[k].spc == AwaitPost ==> tr[k].s.sendsSeen == tr[k].s.recvsSeen == tr[k].s.iter
    ensures tr[k].cpc == Fill ==> tr[k].c.buf == Ping(cfg.size, tr[k].c.iter)
    ensures |tr[k].c.buf| == |tr[k].s.buf| == cfg.size
    ensures tr[k].cpc == Fill && tr[k].c.iter > 0 ==> IsPing(text, tr[k].c.iter - 1) && Holds(tr[k].c.buf, text)
  {
    hide Ping, PingText, IsPing, Holds;
    RunInv(cfg, tr, k);
    OneToken(cfg, tr[k]);
    text := PingText(if tr[k].c.iter > 0 then tr[k].c.iter - 1 else 0);
    if tr[k].cpc == Fill && tr[k].c.iter > 0 {
      PingTextIs(tr[k].c.iter - 1);
      PingHolds(cfg.size, tr[k].c.iter - 1);
    }
  }

  ghost predicate AtMostOneToken(s: State) {
    && Undelivered(s.c) + Undelivered(s.s) <= 1
    && s.s.iter <= s.c.iter + 1 && s.c.iter <= s.s.iter + 1
    && |s.c.sends| <= 1 && |s.s.sends| <= 1 && s.c.recvs <= 1 && s.s.recvs <= 1
    && multiset(s.c.cq)[SendDone] <= 1 && multiset(s.c.cq)[RecvDone] <= 1
    && multiset(s.s.cq)[SendDone] <= 1 && multiset(s.s.cq)[RecvDone] <= 1
  }

  lemma OneToken(cfg: Config, s: State)
    requires Inv(cfg, s)
    ensures AtMostOneToken(s)
  {
    hide Ping;
  }

  lemma StepKeepsBuffers(cfg: Config, s: State, s': State)
    requires Inv(cfg, s) && Next(cfg, s, s')
    ensures s.c.sends != [] ==> s'.c.buf == s.c.buf
    ensures s.s.sends != [] ==> s'.s.buf == s.s.buf
  {
    hide Ping;
    NoSendBeforePost(cfg, s);
    if Deliver(s.c, s'.c, s.s, s'.s) && s'.cpc == s.cpc && s'.spc == s.spc {
      PingInv(cfg, s, s');
    } else if Deliver(s.s, s'.s, s.c, s'.c) && s'.cpc == s.cpc && s'.spc == s.spc {
      PongInv(cfg, s, s');
    }
  }

  /** Shared-buffer safety: no step of either process or of the adapters changes the bytes of a send that is not
      yet complete. */
  lemma BufferSafety(cfg: Config, tr: seq<State>, k: nat)
    requires Run(cfg, tr) && k + 1 < |tr|
    ensures tr[k].c.sends != [] ==> tr[k + 1].c.buf == tr[k].c.buf
    ensures tr[k].s.sends != [] ==> tr[k + 1].s.buf == tr[k].s.buf
  {
    RunInv(cfg, tr, k);
    StepKeepsBuffers(cfg, tr[k], tr[k + 1]);
  }

  // ---------- progress ----------

  /** Steps the adapters still have to make for the send that x has posted: deliver it, acknowledge it. */
  function Pending(x: Side): nat {
    if x.sends == [] then 0 else if x.sends == [true] then 1 else 2
  }

  /** Steps still to be made for the client: its own, and the adapters' for pings posted now or later. */
  function ClientWork(iters: nat, pc: ClientPc, c: Side): int {
    5 * (iters - c.iter) - ClientRank(pc) + 2 * (iters - c.iter - One(ClientRank(pc) >= 3)) + Pending(c)
  }

  function ServerWork(iters: nat, pc: ServerPc, x: Side): int {
    4 * (iters - x.iter) - ServerRank(pc) + 2 * (iters - x.iter - One(pc == PollSend)) + Pending(x)
  }

  function Measure(cfg: Config, s: State): int {
    ClientWork(cfg.iters, s.cpc, s.c) + ServerWork(cfg.iters, s.spc, s.s)
  }

  lemma PollMeasure(x: Side)
    requires x.cq != []
    ensures Polled(x).iter == x.iter && Polled(x).sends == x.sends
  {
  }

  lemma ClientMeasure(cfg: Config, s: State, s': State)
    requires ClientStep(cfg, s, s') && (s.cpc == PostSend ==> s.c.sends == [])
    ensures ClientWork(cfg.iters, s'.cpc, s'.c) == ClientWork(cfg.iters, s.cpc, s.c) - 1
    ensures s'.spc == s.spc && s'.s == s.s
  {
    hide Polled, Print, PingText;
    if s.c.cq != [] {
      PollMeasure(s.c);
    }
    assert s.c.sends == [] ==> s.c.sends + [false] == [false];
  }

  lemma ServerMeasure(cfg: Config, s: State, s': State)
    requires ServerStep(cfg, s, s') && (s.spc == Reply ==> s.s.sends == [])
    ensures ServerWork(cfg.iters, s'.spc, s'.s) == ServerWork(cfg.iters, s.spc, s.s) - 1
    ensures s'.cpc == s.cpc && s'.c == s.c
  {
    hide Polled;
    if s.s.cq != [] {
      PollMeasure(s.s);
    }
    assert s.s.sends == [] ==> s.s.sends + [false] == [false];
  }

  lemma AdapterMeasure(x: Side, x': Side, y: Side, y': Side)
    requires x.sends == [] || x.sends == [true] || x.sends == [false]
    requires Deliver(x, x', y, y') || Acknowledge(x, x')
    ensures Pending(x') == Pending(x) - 1 && x'.iter == x.iter
    ensures Deliver(x, x', y, y') ==> y'.sends == y.sends && y'.iter == y.iter
  {
  }

  lemma NextMeasure(cfg: Config, s: State, s': State)
    requires Inv(cfg, s) && Next(cfg, s, s')
    ensures Measure(cfg, s') == Measure(cfg, s) - 1
  {
    NoSendBeforePost(cfg, s);
    hide Ping, Polled, ClientStep, ServerStep;
    if ClientStep(cfg, s, s') {
      ClientMeasure(cfg, s, s');
    } else if ServerStep(cfg, s, s') {
      ServerMeasure(cfg, s, s');
    } else if Deliver(s.c, s'.c, s.s, s'.s) && s'.cpc == s.cpc && s'.spc == s.spc {
      AdapterMeasure(s.c, s'.c, s.s, s'.s);
    } else if Deliver(s.s, s'.s, s.c, s'.c) && s'.cpc == s.cpc && s'.spc == s.spc {
      AdapterMeasure(s.s, s'.s, s.c, s'.c);
    } else if Acknowledge(s.c, s'.c) && s' == s.(c := s'.c) {
      AdapterMeasure(s.c, s'.c, s.s, s'.s);
    } else {
      AdapterMeasure(s.s, s'.s, s.c, s'.c);
    }
  }

  lemma NoSendBeforePost(cfg: Config, s: State)
    requires Inv(cfg, s)
    ensures ClientRank(s.cpc) <= 2 ==> s.c.sends == []
    ensures s.spc != PollSend ==> s.s.sends == []
  {
    hide Ping;
  }

  lemma MeasureBound(cfg: Config, s: State)
    requires Inv(cfg, s)
    ensures Measure(cfg, s) >= 0
  {
    hide Ping;
  }

  ghost predicate CanStep(cfg: Config, s: State) {
    exists s' :: Next(cfg, s, s')
  }

  lemma ClientCan(cfg: Config, s: State)
    requires s.c.iter < cfg.iters && (ClientRank(s.cpc) >= 3 ==> s.c.cq != [])
    ensures CanStep(cfg, s)
  {
    var c := s.c;
    var s' := match s.cpc
      case Fill => s.(c := c.(buf := Print(c.buf, PingText(c.iter))), cpc := PostRecv)
      case PostRecv => s.(c := c.(recvs := c.recvs + 1), cpc := PostSend)
      case PostSend => s.(c := c.(sends := c.sends + [false]), cpc := PollFirst)
      case PollFirst => s.(c := Polled(c), cpc := PollSecond)
      case PollSecond => s.(c := Polled(c).(iter := c.iter + 1), cpc := Fill);
    assert ClientStep(cfg, s, s');
    assert Next(cfg, s, s');
  }

  lemma ServerCan(cfg: Config, s: State)
    requires s.s.iter < cfg.iters && (s.spc == PollRecv || s.spc == PollSend ==> s.s.cq != [])
    ensures CanStep(cfg, s)
  {
    var x := s.s;
    var s' := match s.spc
      case AwaitPost => s.(s := x.(recvs := x.recvs + 1), spc := PollRecv)
      case PollRecv => s.(s := Polled(x), spc := Reply)
      case Reply => s.(s := x.(sends := x.sends + [false]), spc := PollSend)
      case PollSend => s.(s := Polled(x).(iter := x.iter + 1), spc := AwaitPost);
    assert ServerStep(cfg, s, s');
    assert Next(cfg, s, s');
  }

  lemma AdaptersCan(cfg: Config, s: State)
    requires (s.c.sends == [false] && s.s.recvs > 0) || (s.s.sends == [false] && s.c.recvs > 0)
             || s.c.sends == [true] || s.s.sends == [true]
    ensures CanStep(cfg, s)
  {
    var c, x := s.c, s.s;
    if c.sends == [true] {
      assert Next(cfg, s, s.(c := c.(sends := c.sends[1..], cq := c.cq + [SendDone])));
    } else if x.sends == [true] {
      assert Next(cfg, s, s.(s := x.(sends := x.sends[1..], cq := x.cq + [SendDone])));
    } else if c.sends == [false] && x.recvs > 0 {
      assert FirstUndelivered(c, 0);
      var s' := s.(c := c.(sends := c.sends[0 := true]),
                   s := x.(buf := c.buf, recvs := x.recvs - 1, cq := x.cq + [RecvDone]));
      assert Deliver(c, s'.c, x, s'.s);
      assert Next(cfg, s, s');
    } else {
      assert FirstUndelivered(x, 0);
      var s' := s.(s := x.(sends := x.sends[0 := true]),
                   c := c.(buf := x.buf, recvs := c.recvs - 1, cq := c.cq + [RecvDone]));
      assert Deliver(x, s'.s, c, s'.c);
      assert Next(cfg, s, s');
    }
  }

  lemma CqNonEmpty(x: Side)
    ensures multiset(x.cq)[SendDone] > 0 || multiset(x.cq)[RecvDone] > 0 <==> x.cq != []
  {
    if x.cq != [] {
      assert x.cq[0] in multiset(x.cq);
      assert x.cq[0] == SendDone || x.cq[0] == RecvDone;
    }
  }

  /** A state in which nothing can move is the final one. */
  lemma NoDeadlock(cfg: Config, s: State)
    requires Inv(cfg, s)
    ensures CanStep(cfg, s) || Final(cfg, s)
  {
    hide Ping, CanStep;
    CqNonEmpty(s.c);
    CqNonEmpty(s.s);
    if s.c.iter < cfg.iters && (ClientRank(s.cpc) >= 3 ==> s.c.cq != []) {
      ClientCan(cfg, s);
    } else if s.s.iter < cfg.iters && (s.spc == PollRecv || s.spc == PollSend ==> s.s.cq != []) {
      ServerCan(cfg, s);
    } else if (s.c.sends == [false] && s.s.recvs > 0) || (s.s.sends == [false] && s.c.recvs > 0)
              || s.c.sends == [true] || s.s.sends == [true] {
      AdaptersCan(cfg, s);
    }
  }

  /** Deadlock freedom and termination: a run has at most 13 steps per iteration, and one that cannot be extended
      has ended both loops with every queue empty, both sides holding the ping of the last iteration, the text that
      is returned. */
  lemma RunsComplete(cfg: Config, tr: seq<State>) returns (text: string)
    requires Run(cfg, tr)
    ensures |tr| <= 13 * cfg.iters + 1
    ensures CanStep(cfg, tr[|tr| - 1]) || (Final(cfg, tr[|tr| - 1]) && |tr| == 13 * cfg.iters + 1)
    ensures Final(cfg, tr[|tr| - 1]) ==> tr[|tr| - 1].c.buf == tr[|tr| - 1].s.buf == Ping(cfg.size, cfg.iters)
    ensures |tr[|tr| - 1].c.buf| == cfg.size
    ensures Final(cfg, tr[|tr| - 1]) && cfg.iters > 0 ==>
              IsPing(text, cfg.iters - 1) && Holds(tr[|tr| - 1].c.buf, text) && Holds(tr[|tr| - 1].s.buf, text)
  {
    hide Ping, PingText, IsPing, Holds;
    text := PingText(if cfg.iters > 0 then cfg.iters - 1 else 0);
    if cfg.iters > 0 {
      PingTextIs(cfg.iters - 1);
      PingHolds(cfg.size, cfg.iters - 1);
    }
    RunLength(cfg, tr, |tr| - 1);
    RunInv(cfg, tr, |tr| - 1);
    MeasureBound(cfg, tr[|tr| - 1]);
    NoDeadlock(cfg, tr[|tr| - 1]);
  }

  lemma InitMeasure(cfg: Config)
    ensures Measure(cfg, Init(cfg)) == 13 * cfg.iters
  {
  }

  lemma {:induction false} RunLength(cfg: Config, tr: seq<State>, k: nat)
    requires Run(cfg, tr) && k < |tr|
    ensures Measure(cfg, tr[k]) == 13 * cfg.iters - k
  {
    hide Inv, Next, Measure, Init;
    if k == 0 {
      InitMeasure(cfg);
    } else {
      RunLength(cfg, tr, k - 1);
      RunInv(cfg, tr, k - 1);
      NextMeasure(cfg, tr[k - 1], tr[k]);
    }
  }
}
