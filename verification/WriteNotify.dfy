/** Write, then notify: the client writes a text into the server's memory with an RDMA Write, waits for its
    completion and sends a message; the server, whose processor takes no part in the write, reads its memory once
    it has polled the receive of that message.

    The adapters execute the client's work requests in the order of posting (section 9.5 of the InfiniBand
    Architecture Specification, Volume 1), place the bytes of a write one by one in any order, and refuse a write
    that exceeds the remote region. */
module WriteNotify {

  /** The text without its NUL, the size of the client's buffer, and the size of the server's. */
  datatype Config = Config(text: seq<char>, size: nat, region: nat)

  datatype ClientPc = Fill | PostWrite | PollWrite | PostSend | PollSend | Finished | Failed

  datatype ServerPc = PostRecv | PollRecv | ReadData

  /** A posted write of len bytes of which some are placed, or the notification. */
  datatype Request = Write(len: nat, placed: set<nat>) | Notify

  /** Completion queues hold statuses. */
  datatype State = State(cpc: ClientPc, data: seq<char>, sq: seq<Request>, ccq: seq<bool>,
                         spc: ServerPc, mem: seq<char>, recvs: nat, scq: seq<bool>)

  ghost predicate ValidConfig(c: Config) {
    c.size > 0 && '\0' !in c.text
  }

  /** The client's buffer after snprintf: the text cut to fit, a NUL, and the zeros of calloc. */
  function Filled(c: Config): (r: seq<char>)
    requires c.size > 0
    ensures |r| == c.size
  {
    var n := if |c.text| < c.size then |c.text| else c.size - 1;
    c.text[..n] + ['\0'] + seq(c.size - n - 1, (_: nat) => '\0')
  }

  /** strlen. */
  function Length(s: seq<char>): (n: nat)
    ensures n <= |s| && '\0' !in s[..n] && (n < |s| ==> s[n] == '\0')
  {
    if s == [] || s[0] == '\0' then 0 else
      var n := 1 + Length(s[1..]);
      assert s[..n] == [s[0]] + s[1..][..n - 1];
      n
  }

  function Init(c: Config): State {
    State(Fill, seq(c.size, (_: nat) => '\0'), [], [], PostRecv, seq(c.region, (_: nat) => '\0'), 0, [])
  }

  ghost predicate ClientStep(c: Config, s: State, s': State)
    requires ValidConfig(c)
  {
    match s.cpc
    case Fill => s' == s.(data := Filled(c), cpc := PostWrite)
    case PostWrite => s' == s.(sq := s.sq + [Write(Length(s.data) + 1, {})], cpc := PollWrite)
    case PollWrite => s.ccq != [] && s' == s.(ccq := s.ccq[1..], cpc := if s.ccq[0] then PostSend else Failed)
    case PostSend => s' == s.(sq := s.sq + [Notify], cpc := PollSend)
    case PollSend => s.ccq != [] && s' == s.(ccq := s.ccq[1..], cpc := if s.ccq[0] then Finished else Failed)
    case Finished => false
    case Failed => false
  }

  ghost predicate ServerStep(s: State, s': State) {
    match s.spc
    case PostRecv => s' == s.(recvs := s.recvs + 1, spc := PollRecv)
    case PollRecv => s.scq != [] && s' == s.(scq := s.scq[1..], spc := ReadData)
    case ReadData => false
  }

  /** A write that exceeds the remote region completes with an error and places nothing. */
  ghost predicate Refuse(c: Config, s: State, s': State) {
    && s.sq != [] && s.sq[0].Write? && s.sq[0].len > c.region
    && s' == s.(sq := s.sq[1..], ccq := s.ccq + [false])
  }

  /** One byte of the write at the head of the queue is copied from the client's buffer into the server's. */
  ghost predicate Place(c: Config, s: State, s': State, k: nat) {
    && s.sq != [] && s.sq[0].Write? && s.sq[0].len <= c.region
    && k < s.sq[0].len && k !in s.sq[0].placed && k < |s.data| && k < |s.mem|
    && s' == s.(sq := [s.sq[0].(placed := s.sq[0].placed + {k})] + s.sq[1..], mem := s.mem[k := s.data[k]])
  }

  ghost predicate CompleteWrite(c: Config, s: State, s': State) {
    && s.sq != [] && s.sq[0].Write? && s.sq[0].len <= c.region
    && (forall k: nat :: k < s.sq[0].len ==> k in s.sq[0].placed)
    && s' == s.(sq := s.sq[1..], ccq := s.ccq + [true])
  }

  /** The notification waits for a posted receive. */
  ghost predicate Deliver(s: State, s': State) {
    && s.sq != [] && s.sq[0].Notify? && s.recvs > 0
    && s' == s.(sq := s.sq[1..], ccq := s.ccq + [true], recvs := s.recvs - 1, scq := s.scq + [true])
  }

  ghost predicate Next(c: Config, s: State, s': State)
    requires ValidConfig(c)
  {
    || ClientStep(c, s, s') || ServerStep(s, s')
    || Refuse(c, s, s') || (exists k: nat :: Place(c, s, s', k)) || CompleteWrite(c, s, s') || Deliver(s, s')
  }

  ghost predicate Run(c: Config, tr: seq<State>)
    requires ValidConfig(c)
  {
    && tr != [] && tr[0] == Init(c)
    && forall k :: 0 <= k < |tr| - 1 ==> Next(c, tr[k], tr[k + 1])
  }

  /** The bytes the client writes: the string and its NUL. */
  function Payload(c: Config): (r: seq<char>)
    requires c.size > 0
  {
    Filled(c)[..(if |c.text| < c.size then |c.text| else c.size - 1) + 1]
  }

  lemma LengthIs(s: seq<char>, n: nat)
    requires n < |s| && s[n] == '\0' && '\0' !in s[..n]
    ensures Length(s) == n
  {
  }

  /** The text, or what of it fits before a NUL, and the NUL. */
  lemma PayloadLength(c: Config)
    requires ValidConfig(c)
    ensures var n := if |c.text| < c.size then |c.text| else c.size - 1;
            Payload(c) == c.text[..n] + ['\0'] && Length(Filled(c)) == n
    ensures Length(Filled(c)) + 1 == |Payload(c)| <= c.size
    ensures Payload(c) == Filled(c)[..Length(Filled(c)) + 1]
  {
    var n := if |c.text| < c.size then |c.text| else c.size - 1;
    assert Filled(c)[..n] == c.text[..n];
    LengthIs(Filled(c), n);
  }

  // ---------- the invariant ----------

  function Rank(pc: ClientPc): nat {
    match pc
    case Fill => 0 case PostWrite => 1 case PollWrite => 2 case PostSend => 3 case PollSend => 4
    case Finished => 5 case Failed => 6
  }

  /** The write in progress has copied the placed bytes. */
  ghost predicate Copied(c: Config, s: State, placed: set<nat>)
    requires c.size > 0
  {
    && |s.mem| == c.region
    && (forall k :: k in placed ==> k < |Payload(c)| && k < c.region && s.mem[k] == Payload(c)[k])
  }

  ghost predicate AllCopied(c: Config, s: State)
    requires c.size > 0
  {
    |s.mem| == c.region && |Payload(c)| <= c.region && s.mem[..|Payload(c)|] == Payload(c)
  }

  ghost predicate Inv(c: Config, s: State)
    requires ValidConfig(c)
  {
    && |s.mem| == c.region
    && (Rank(s.cpc) >= 1 ==> s.data == Filled(c))
    && (Rank(s.cpc) <= 1 ==> s.sq == [] && s.ccq == [])
    && (s.cpc == PollWrite ==>
          || (|s.sq| == 1 && s.sq[0].Write? && s.sq[0].len == |Payload(c)| && s.ccq == []
              && Copied(c, s, s.sq[0].placed))
          || (s.sq == [] && s.ccq == [true] && AllCopied(c, s))
          || (s.sq == [] && s.ccq == [false] && |Payload(c)| > c.region))
    && (s.cpc == PostSend ==> s.sq == [] && s.ccq == [] && AllCopied(c, s))
    && (s.cpc == PollSend ==>
          AllCopied(c, s) && ((s.sq == [Notify] && s.ccq == []) || (s.sq == [] && s.ccq == [true])))
    && (s.cpc == Finished ==> s.sq == [] && s.ccq == [] && AllCopied(c, s))
    && (s.cpc == Failed ==> s.sq == [] && s.ccq == [] && |Payload(c)| > c.region)
    // the server has its notification iff it has been delivered
    && (var delivered := s.cpc == Finished || (s.cpc == PollSend && s.sq == []);
        && (s.spc == PostRecv ==> s.recvs == 0 && s.scq == [] && !delivered)
        && (s.spc == PollRecv ==>
              (!delivered && s.recvs == 1 && s.scq == []) || (delivered && s.recvs == 0 && s.scq == [true]))
        && (s.spc == ReadData ==> delivered && s.recvs == 0 && s.scq == []))
  }

  lemma InitInv(c: Config)
    requires ValidConfig(c)
    ensures Inv(c, Init(c))
  {
  }

  lemma PlaceInv(c: Config, s: State, s': State, k: nat)
    requires ValidConfig(c) && Inv(c, s) && Place(c, s, s', k)
    ensures Inv(c, s')
  {
  }

  lemma CompleteInv(c: Config, s: State, s': State)
    requires ValidConfig(c) && Inv(c, s) && CompleteWrite(c, s, s')
    ensures Inv(c, s')
  {
  }

  lemma ClientPostInv(c: Config, s: State, s': State)
    requires ValidConfig(c) && Inv(c, s) && ClientStep(c, s, s') && (Rank(s.cpc) <= 1 || s.cpc == PostSend)
    ensures Inv(c, s')
  {
    PayloadLength(c);
    hide Filled, Length, Payload;
  }

  lemma ClientPollInv(c: Config, s: State, s': State)
    requires ValidConfig(c) && Inv(c, s) && ClientStep(c, s, s') && (s.cpc == PollWrite || s.cpc == PollSend)
    ensures Inv(c, s')
  {
    hide Filled, Length, Payload, Copied;
  }

  lemma ClientInv(c: Config, s: State, s': State)
    requires ValidConfig(c) && Inv(c, s) && ClientStep(c, s, s')
    ensures Inv(c, s')
  {
    hide Inv, ClientStep;
    match s.cpc
    case PollWrite => ClientPollInv(c, s, s');
    case PollSend => ClientPollInv(c, s, s');
    case Fill => ClientPostInv(c, s, s');
    case PostWrite => ClientPostInv(c, s, s');
    case PostSend => ClientPostInv(c, s, s');
    case _ => ClientAtRest(c, s, s');
  }

  lemma ClientAtRest(c: Config, s: State, s': State)
    requires ValidConfig(c) && (s.cpc == Finished || s.cpc == Failed)
    ensures !ClientStep(c, s, s')
  {
  }

  lemma NextInv(c: Config, s: State, s': State)
    requires ValidConfig(c) && Inv(c, s) && Next(c, s, s')
    ensures Inv(c, s')
  {
    if ClientStep(c, s, s') {
      ClientInv(c, s, s');
    } else if k: nat :| Place(c, s, s', k) {
      PlaceInv(c, s, s', k);
    } else if CompleteWrite(c, s, s') {
      CompleteInv(c, s, s');
    } else {
      hide Filled, Length, Payload;
    }
  }

  lemma {:induction false} RunInv(c: Config, tr: seq<State>, k: nat)
    requires ValidConfig(c) && Run(c, tr) && k < |tr|
    ensures Inv(c, tr[k])
  {
    hide Inv, Next, Init;
    if k == 0 {
      InitInv(c);
    } else {
      RunInv(c, tr, k - 1);
      NextInv(c, tr[k - 1], tr[k]);
    }
  }

  // ---------- what every run does ----------

  /** When the server has polled the notification its memory begins with the text, or what of it the client's buffer
      had room for, and a NUL: all the bytes that the client wrote. */
  lemma NotifiedAfterWrite(c: Config, tr: seq<State>, k: nat)
    requires ValidConfig(c) && Run(c, tr) && k < |tr| && tr[k].spc == ReadData
    ensures var n := if |c.text| < c.size then |c.text| else c.size - 1;
      && n < c.region == |tr[k].mem| && tr[k].mem[..n] == c.text[..n] && tr[k].mem[n] == '\0'
      && Length(tr[k].mem) == n && tr[k].mem[..n + 1] == Payload(c)
  {
    RunInv(c, tr, k);
    PayloadLength(c);
    var m, n := tr[k].mem, Length(Filled(c));
    hide Filled, Payload;
    assert m[..n + 1] == c.text[..n] + ['\0'];
    assert m[..n] == m[..n + 1][..n] == c.text[..n];
    assert m[n] == m[..n + 1][n] == '\0';
    LengthIs(m, n);
  }

  ghost predicate CanStep(c: Config, s: State)
    requires ValidConfig(c)
  {
    exists s' :: Next(c, s, s')
  }

  /** A run that cannot go on has ended well on both sides if the text fits the server's region; if it does not,
      the client has failed and the server waits for ever. */
  lemma EndOfRun(c: Config, tr: seq<State>)
    requires ValidConfig(c) && Run(c, tr) && !CanStep(c, tr[|tr| - 1])
    ensures var n := if |c.text| < c.size then |c.text| else c.size - 1;
      && tr[|tr| - 1].spc == (if n + 1 <= c.region then ReadData else PollRecv)
      && tr[|tr| - 1].cpc == (if n + 1 <= c.region then Finished else Failed)
  {
    var s := tr[|tr| - 1];
    RunInv(c, tr, |tr| - 1);
    PayloadLength(c);
    hide Filled, Length, Payload;
    assert !Next(c, s, s.(recvs := s.recvs + 1, spc := PollRecv));
    assert s.scq != [] ==> !Next(c, s, s.(scq := s.scq[1..], spc := ReadData));
    assert !Next(c, s, s.(data := Filled(c), cpc := PostWrite));
    assert !Next(c, s, s.(sq := s.sq + [Write(Length(s.data) + 1, {})], cpc := PollWrite));
    assert !Next(c, s, s.(sq := s.sq + [Notify], cpc := PollSend));
    if s.ccq != [] {
      ClientCanPoll(c, s);
    }
    if s.sq != [] && (s.sq[0].Notify? ==> s.recvs > 0) {
      AdaptersCan(c, s);
    }
  }

  lemma ClientCanPoll(c: Config, s: State)
    requires ValidConfig(c) && s.ccq != [] && (s.cpc == PollWrite || s.cpc == PollSend)
    ensures CanStep(c, s)
  {
    var ok := if s.cpc == PollWrite then PostSend else Finished;
    assert Next(c, s, s.(ccq := s.ccq[1..], cpc := if s.ccq[0] then ok else Failed));
  }

  lemma AdaptersCan(c: Config, s: State)
    requires ValidConfig(c) && Inv(c, s) && s.sq != [] && (s.sq[0].Notify? ==> s.recvs > 0)
    ensures CanStep(c, s)
  {
    PayloadLength(c);
    hide Filled, Length, Payload;
    if s.sq[0].Notify? {
      assert Next(c, s, s.(sq := s.sq[1..], ccq := s.ccq + [true], recvs := s.recvs - 1, scq := s.scq + [true]));
    } else if s.sq[0].len > c.region {
      assert Next(c, s, s.(sq := s.sq[1..], ccq := s.ccq + [false]));
    } else if k: nat :| k < s.sq[0].len && k !in s.sq[0].placed {
      var s' := s.(sq := [s.sq[0].(placed := s.sq[0].placed + {k})] + s.sq[1..], mem := s.mem[k := s.data[k]]);
      assert Place(c, s, s', k);
      assert Next(c, s, s');
    } else {
      assert Next(c, s, s.(sq := s.sq[1..], ccq := s.ccq + [true]));
    }
  }

  // ---------- termination ----------

  function Missing(len: nat, placed: set<nat>): set<nat> {
    set k: nat | k < len && k !in placed
  }

  /** Steps the adapters still have to make at most. */
  function AdapterWork(c: Config, s: State): nat
    requires c.size > 0
  {
    match s.cpc
    case Fill => |Payload(c)| + 2
    case PostWrite => |Payload(c)| + 2
    case PollWrite => if s.sq != [] && s.sq[0].Write? then |Missing(s.sq[0].len, s.sq[0].placed)| + 2 else 1
    case PostSend => 1
    case PollSend => |s.sq|
    case Finished => 0
    case Failed => 0
  }

  function Measure(c: Config, s: State): nat
    requires c.size > 0
  {
    AdapterWork(c, s) + (if s.cpc == Failed then 0 else 5 - Rank(s.cpc))
    + match s.spc case PostRecv => 2 case PollRecv => 1 case ReadData => 0
  }

  lemma {:induction false} AllMissing(len: nat)
    ensures |Missing(len, {})| == len
  {
    if len == 0 {
      assert Missing(0, {}) == {};
    } else {
      AllMissing(len - 1);
      assert Missing(len, {}) == Missing(len - 1, {}) + {len - 1};
    }
  }

  lemma ClientDecreases(c: Config, s: State, s': State)
    requires ValidConfig(c) && Inv(c, s) && ClientStep(c, s, s')
    ensures Measure(c, s') < Measure(c, s)
  {
    PayloadLength(c);
    AllMissing(|Payload(c)|);
    hide Filled, Length, Payload, Missing, Copied, AllCopied;
    assert [] + [Write(|Payload(c)|, {})] == [Write(|Payload(c)|, {})];
  }

  lemma PlaceDecreases(c: Config, s: State, s': State, k: nat)
    requires ValidConfig(c) && Inv(c, s) && Place(c, s, s', k)
    ensures Measure(c, s') < Measure(c, s)
  {
    hide Filled, Length, Payload, Copied;
    var w := s.sq[0];
    assert Missing(w.len, w.placed) == Missing(w.len, w.placed + {k}) + {k};
  }

  lemma OtherDecreases(c: Config, s: State, s': State)
    requires ValidConfig(c) && Inv(c, s)
    requires ServerStep(s, s') || Refuse(c, s, s') || CompleteWrite(c, s, s') || Deliver(s, s')
    ensures Measure(c, s') < Measure(c, s)
  {
    hide Filled, Length, Payload, Copied, AllCopied, Missing;
  }

  /** Every step of either process or of the adapters uses up some of a bound. */
  lemma NextDecreases(c: Config, s: State, s': State)
    requires ValidConfig(c) && Inv(c, s) && Next(c, s, s')
    ensures Measure(c, s') < Measure(c, s)
  {
    hide Inv, ClientStep, ServerStep, Place, Refuse, CompleteWrite, Deliver, Measure;
    if ClientStep(c, s, s') {
      ClientDecreases(c, s, s');
    } else if k: nat :| Place(c, s, s', k) {
      PlaceDecreases(c, s, s', k);
    } else {
      OtherDecreases(c, s, s');
    }
  }
}
