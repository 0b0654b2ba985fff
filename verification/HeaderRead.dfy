/** One-sided publication: a server stores a header and a payload into memory that a client reads remotely, first
    the header and then as many payload bytes as the header announces, with no further synchronisation.

    The memory is a row of cells: magic, length, sequence number, then the payload bytes, all zero at first.  The
    server stores every cell once, in some order; before the barrier it has made the first early stores.  The two
    remote reads fetch their cells one by one, in any order, at any moment between posting and completion. */
module HeaderRead {

  const MAGIC: int := 0x52444D41
  const HEADER: nat := 3

  /** Final cell contents, the order of the stores, how many precede the barrier, and the client's buffer size. */
  datatype Config = Config(cells: seq<int>, order: seq<nat>, early: nat, room: nat)

  ghost predicate ValidConfig(c: Config) {
    && |c.cells| >= HEADER && c.cells[0] == MAGIC && c.cells[1] >= 0 && c.early <= |c.order|
    && (forall k :: 0 <= k < |c.order| ==> c.order[k] < |c.cells|)
    && (forall j, k :: 0 <= j < k < |c.order| ==> c.order[j] != c.order[k])
    && (forall cell: nat :: cell < |c.cells| ==> cell in c.order)
  }

  /** The announced payload fits into the remote region and into the client's buffer. */
  predicate Fits(c: Config)
    requires |c.cells| >= HEADER
  {
    HEADER + c.cells[1] <= |c.cells| && c.cells[1] <= c.room
  }

  /** What a cell holds after the first t stores. */
  function Mem(c: Config, t: nat, cell: nat): int
    requires t <= |c.order| && cell < |c.cells|
  {
    if cell in c.order[..t] then c.cells[cell] else 0
  }

  datatype Phase = ReadingHeader | ReadingPayload(len: nat) | Accepted(len: nat) | Rejected | ReadFails

  /** Stores made so far, what the client does, and the cells its two reads have fetched. */
  datatype State = State(t: nat, phase: Phase, hdr: map<nat, int>, buf: map<nat, int>)

  function Init(c: Config): State {
    State(c.early, ReadingHeader, map[], map[])
  }

  /** The decision of the client once the header has been read: check the magic, then post the payload read, which
      fails if it exceeds the remote region or the local buffer. */
  function Decide(c: Config, hdr: map<nat, int>): Phase
    requires 0 in hdr && 1 in hdr
  {
    if hdr[0] != MAGIC then Rejected
    else if hdr[1] < 0 || HEADER + hdr[1] > |c.cells| || hdr[1] > c.room then ReadFails
    else ReadingPayload(hdr[1])
  }

  ghost predicate Store(c: Config, s: State, s': State) {
    s.t < |c.order| && s' == s.(t := s.t + 1)
  }

  ghost predicate FetchHeader(c: Config, s: State, s': State, cell: nat)
    requires ValidConfig(c) && s.t <= |c.order|
  {
    && s.phase == ReadingHeader && cell < HEADER && cell !in s.hdr
    && s' == s.(hdr := s.hdr[cell := Mem(c, s.t, cell)])
  }

  ghost predicate PollHeader(c: Config, s: State, s': State) {
    && s.phase == ReadingHeader && (forall cell: nat :: cell < HEADER ==> cell in s.hdr)
    && s' == s.(phase := Decide(c, s.hdr))
  }

  ghost predicate FetchByte(c: Config, s: State, s': State, k: nat)
    requires ValidConfig(c) && s.t <= |c.order|
  {
    && s.phase.ReadingPayload? && k < s.phase.len && HEADER + k < |c.cells| && k !in s.buf
    && s' == s.(buf := s.buf[k := Mem(c, s.t, HEADER + k)])
  }

  ghost predicate PollPayload(s: State, s': State) {
    && s.phase.ReadingPayload? && (forall k: nat :: k < s.phase.len ==> k in s.buf)
    && s' == s.(phase := Accepted(s.phase.len))
  }

  ghost predicate Next(c: Config, s: State, s': State)
    requires ValidConfig(c)
  {
    s.t <= |c.order| &&
    (|| Store(c, s, s')
     || (exists cell: nat :: FetchHeader(c, s, s', cell))
     || PollHeader(c, s, s')
     || (exists k: nat :: FetchByte(c, s, s', k))
     || PollPayload(s, s'))
  }

  ghost predicate Run(c: Config, tr: seq<State>)
    requires ValidConfig(c)
  {
    && tr != [] && tr[0] == Init(c)
    && forall k :: 0 <= k < |tr| - 1 ==> Next(c, tr[k], tr[k + 1])
  }

  ghost predicate Reachable(c: Config, s: State)
    requires ValidConfig(c)
  {
    exists tr :: Run(c, tr) && tr[|tr| - 1] == s
  }

  // ---------- what the client may rely on ----------

  /** The bytes the client has accepted are the server's bytes. */
  ghost predicate Faithful(c: Config, s: State)
    requires ValidConfig(c)
  {
    s.phase.Accepted? ==>
      && HEADER + s.phase.len <= |c.cells|
      && forall k: nat :: k < s.phase.len ==> k in s.buf && s.buf[k] == c.cells[HEADER + k]
  }

  /** And they are the whole message. */
  ghost predicate Complete(c: Config, s: State)
    requires ValidConfig(c)
  {
    s.phase.Accepted? ==> s.phase.len == c.cells[1] && Faithful(c, s)
  }

  /** The store of a cell, as a position in the server's program. */
  ghost predicate StoredBy(c: Config, cell: nat, t: nat)
    requires t <= |c.order|
  {
    cell in c.order[..t]
  }

  /** Byte k of the payload is stored late: at some moment after the barrier the magic and the length are in place
      and the byte, which is not zero, is not. */
  ghost predicate Late(c: Config, k: nat, t: nat)
    requires ValidConfig(c) && t <= |c.order|
  {
    && k < c.cells[1] && HEADER + k < |c.cells| && c.cells[HEADER + k] != 0
    && c.early <= t && StoredBy(c, 0, t) && StoredBy(c, 1, t) && !StoredBy(c, HEADER + k, t)
  }

  /** The store order publishes the payload safely: no byte is late. */
  ghost predicate Published(c: Config)
    requires ValidConfig(c)
  {
    forall k: nat, t: nat :: t <= |c.order| ==> !Late(c, k, t)
  }

  // ---------- the invariant ----------

  ghost predicate HeaderOk(c: Config, s: State)
    requires ValidConfig(c) && s.t <= |c.order|
  {
    && (forall cell :: cell in s.hdr ==>
          cell < HEADER && (s.hdr[cell] == 0 || (s.hdr[cell] == c.cells[cell] && StoredBy(c, cell, s.t))))
    && (forall cell :: cell in s.hdr && StoredBy(c, cell, c.early) ==> s.hdr[cell] == c.cells[cell])
  }

  /** What the client found in the header when it decided. */
  ghost predicate Decided(c: Config, s: State) {
    s.phase != ReadingHeader ==>
      && 0 in s.hdr && 1 in s.hdr
      && (s.phase == Rejected <==> s.hdr[0] != 0x52444D41)
      && (s.phase == ReadFails ==> s.hdr[1] < 0 || 3 + s.hdr[1] > |c.cells| || s.hdr[1] > c.room)
  }

  ghost predicate PayloadOk(c: Config, s: State)
    requires ValidConfig(c) && s.t <= |c.order|
  {
    s.phase.ReadingPayload? || s.phase.Accepted? ==>
      && StoredBy(c, 0, s.t) && 1 in s.hdr && s.phase.len == s.hdr[1]
      && HEADER + s.phase.len <= |c.cells| && s.phase.len <= c.room
      && (forall k :: k in s.buf ==>
            && k < s.phase.len && (s.buf[k] == 0 || s.buf[k] == c.cells[HEADER + k])
            && (Published(c) ==> s.buf[k] == c.cells[HEADER + k]))
      && (s.phase.Accepted? ==> forall k: nat :: k < s.phase.len ==> k in s.buf)
  }

  ghost predicate Inv(c: Config, s: State)
    requires ValidConfig(c)
  {
    && c.early <= s.t <= |c.order| && HeaderOk(c, s) && PayloadOk(c, s)
    && (s.phase == ReadingHeader ==> s.buf == map[]) && Decided(c, s)
  }

  lemma StoreInv(c: Config, s: State, s': State)
    requires ValidConfig(c) && Inv(c, s) && Store(c, s, s')
    ensures Inv(c, s')
  {
  }

  lemma FetchHeaderInv(c: Config, s: State, s': State, cell: nat)
    requires ValidConfig(c) && Inv(c, s) && FetchHeader(c, s, s', cell)
    ensures Inv(c, s')
  {
  }

  lemma PollHeaderInv(c: Config, s: State, s': State)
    requires ValidConfig(c) && Inv(c, s) && PollHeader(c, s, s')
    ensures Inv(c, s')
  {
    hide Published, StoredBy;
  }

  lemma FetchByteInv(c: Config, s: State, s': State, k: nat)
    requires ValidConfig(c) && Inv(c, s) && FetchByte(c, s, s', k)
    ensures Inv(c, s')
  {
    assert StoredBy(c, 1, s.t);
    assert Published(c) ==> !Late(c, k, s.t);
    hide Published;
  }

  lemma NextInv(c: Config, s: State, s': State)
    requires ValidConfig(c) && Inv(c, s) && Next(c, s, s')
    ensures Inv(c, s')
  {
    if Store(c, s, s') {
      StoreInv(c, s, s');
    } else if cell: nat :| FetchHeader(c, s, s', cell) {
      FetchHeaderInv(c, s, s', cell);
    } else if PollHeader(c, s, s') {
      PollHeaderInv(c, s, s');
    } else if k: nat :| FetchByte(c, s, s', k) {
      FetchByteInv(c, s, s', k);
    } else {
      hide Published, StoredBy;
    }
  }

  lemma {:induction false} RunInv(c: Config, tr: seq<State>, k: nat)
    requires ValidConfig(c) && Run(c, tr) && k < |tr|
    ensures Inv(c, tr[k])
  {
    if k == 0 {
      hide Published, StoredBy;
    } else {
      RunInv(c, tr, k - 1);
      hide Inv, Next;
      NextInv(c, tr[k - 1], tr[k]);
    }
  }

  lemma ReachableInv(c: Config, s: State)
    requires ValidConfig(c) && Reachable(c, s)
    ensures Inv(c, s)
  {
    var tr :| Run(c, tr) && tr[|tr| - 1] == s;
    RunInv(c, tr, |tr| - 1);
  }

  // ---------- counterexample runs ----------

  lemma ReachableInit(c: Config)
    requires ValidConfig(c)
    ensures Reachable(c, Init(c))
  {
    assert Run(c, [Init(c)]);
  }

  lemma Extend(c: Config, s: State, s': State)
    requires ValidConfig(c) && Reachable(c, s) && Next(c, s, s')
    ensures Reachable(c, s')
  {
    var tr :| Run(c, tr) && tr[|tr| - 1] == s;
    var t := tr + [s'];
    forall k | 0 <= k < |t| - 1
      ensures Next(c, t[k], t[k + 1])
    {
      if k < |tr| - 1 {
        assert Next(c, tr[k], tr[k + 1]);
      }
    }
    assert Run(c, t) && t[|t| - 1] == s';
  }

  /** The server stores on, up to t. */
  lemma {:induction false} StoreUntil(c: Config, s: State, t: nat)
    requires ValidConfig(c) && Reachable(c, s) && s.t <= t <= |c.order|
    ensures Reachable(c, s.(t := t))
    decreases t - s.t
  {
    if s.t == t {
      assert s.(t := t) == s;
    } else {
      var s' := s.(t := s.t + 1);
      assert Store(c, s, s');
      Extend(c, s, s');
      StoreUntil(c, s', t);
      assert s'.(t := t) == s.(t := t);
    }
  }

  lemma ReadCell(c: Config, s: State, cell: nat)
    requires ValidConfig(c) && Reachable(c, s) && s.t <= |c.order|
    requires s.phase == ReadingHeader && cell < HEADER && cell !in s.hdr
    ensures Reachable(c, s.(hdr := s.hdr[cell := Mem(c, s.t, cell)]))
  {
    assert FetchHeader(c, s, s.(hdr := s.hdr[cell := Mem(c, s.t, cell)]), cell);
    Extend(c, s, s.(hdr := s.hdr[cell := Mem(c, s.t, cell)]));
  }

  lemma AcceptHeader(c: Config, s: State)
    requires ValidConfig(c) && Reachable(c, s) && s.t <= |c.order|
    requires s.phase == ReadingHeader && s.hdr.Keys == {0, 1, 2} && s.hdr[0] == MAGIC
    requires 0 <= s.hdr[1] <= c.room && HEADER + s.hdr[1] <= |c.cells|
    ensures Reachable(c, s.(phase := ReadingPayload(s.hdr[1])))
  {
    assert PollHeader(c, s, s.(phase := ReadingPayload(s.hdr[1])));
    Extend(c, s, s.(phase := ReadingPayload(s.hdr[1])));
  }

  /** All payload bytes fetched at one moment. */
  lemma {:induction false} FetchAll(c: Config, s: State, n: nat) returns (s': State)
    requires ValidConfig(c) && Reachable(c, s) && s.t <= |c.order|
    requires s.phase.ReadingPayload? && s.buf == map[] && n <= s.phase.len && HEADER + s.phase.len <= |c.cells|
    ensures Reachable(c, s') && s' == s.(buf := s'.buf)
    ensures forall k: nat :: k in s'.buf <==> k < n
    ensures forall k: nat :: k < n ==> s'.buf[k] == Mem(c, s.t, HEADER + k)
  {
    if n == 0 {
      s' := s;
    } else {
      var s1 := FetchAll(c, s, n - 1);
      s' := s1.(buf := s1.buf[n - 1 := Mem(c, s.t, HEADER + n - 1)]);
      assert FetchByte(c, s1, s', n - 1);
      Extend(c, s1, s');
    }
  }

  /** All header cells are fetched at one moment and the client decides. */
  lemma DecideAt(c: Config, t: nat) returns (s: State)
    requires ValidConfig(c) && c.early <= t <= |c.order|
    ensures Reachable(c, s) && s.hdr.Keys == {0, 1, 2} && s.phase == Decide(c, s.hdr)
    ensures s.t == t && s.buf == map[] && s.hdr[0] == Mem(c, t, 0) && s.hdr[1] == Mem(c, t, 1)
  {
    ReachableInit(c);
    StoreUntil(c, Init(c), t);
    var h0 := Init(c).(t := t);
    ReadCell(c, h0, 0);
    var h1 := h0.(hdr := h0.hdr[0 := Mem(c, t, 0)]);
    ReadCell(c, h1, 1);
    var h2 := h1.(hdr := h1.hdr[1 := Mem(c, t, 1)]);
    ReadCell(c, h2, 2);
    var h3 := h2.(hdr := h2.hdr[2 := Mem(c, t, 2)]);
    s := h3.(phase := Decide(c, h3.hdr));
    assert PollHeader(c, h3, s);
    Extend(c, h3, s);
  }

  /** A late byte reaches the client as zero. */
  lemma LateByteRead(c: Config, k: nat, t: nat) returns (s: State)
    requires ValidConfig(c) && Fits(c) && t <= |c.order| && Late(c, k, t)
    ensures Reachable(c, s) && !Faithful(c, s)
  {
    var h := DecideAt(c, t);
    var p := FetchAll(c, h, c.cells[1]);
    s := p.(phase := Accepted(p.phase.len));
    assert PollPayload(p, s);
    Extend(c, p, s);
    assert s.buf[k] == 0;
  }

  /** A length that is not yet stored when it is fetched, in a header whose magic is fetched later. */
  lemma EmptyPayloadRead(c: Config) returns (s: State)
    requires ValidConfig(c) && c.cells[1] > 0 && !StoredBy(c, 1, c.early)
    ensures Reachable(c, s) && !Complete(c, s)
  {
    ReachableInit(c);
    var h0 := Init(c);
    ReadCell(c, h0, 1);
    var h1 := h0.(hdr := h0.hdr[1 := 0]);
    StoreUntil(c, h1, |c.order|);
    var h2 := h1.(t := |c.order|);
    assert c.order[..|c.order|] == c.order;
    ReadCell(c, h2, 0);
    var h3 := h2.(hdr := h2.hdr[0 := MAGIC]);
    ReadCell(c, h3, 2);
    var h4 := h3.(hdr := h3.hdr[2 := Mem(c, |c.order|, 2)]);
    AcceptHeader(c, h4);
    var p := h4.(phase := ReadingPayload(0));
    s := p.(phase := Accepted(0));
    assert PollPayload(p, s);
    Extend(c, p, s);
  }

  // ---------- when the client gives up ----------

  /** The client rejects the header in some run iff the magic is not stored before the barrier. */
  lemma RejectedIff(c: Config)
    requires ValidConfig(c)
    ensures (exists s :: Reachable(c, s) && s.phase == Rejected) <==> 0 !in c.order[..c.early]
  {
    if 0 !in c.order[..c.early] {
      var s := DecideAt(c, c.early);
      assert s.phase == Rejected;
    }
    forall s | Reachable(c, s) && s.phase == Rejected
      ensures 0 !in c.order[..c.early]
    {
      ReachableInv(c, s);
      if StoredBy(c, 0, c.early) {
        assert false;
      }
    }
  }

  /** Its read of the payload fails in some run iff the announced payload exceeds the remote region or its buffer. */
  lemma ReadFailsIff(c: Config)
    requires ValidConfig(c)
    ensures (exists s :: Reachable(c, s) && s.phase == ReadFails)
            <==> 3 + c.cells[1] > |c.cells| || c.cells[1] > c.room
  {
    if 3 + c.cells[1] > |c.cells| || c.cells[1] > c.room {
      assert c.order[..|c.order|] == c.order;
      var s := DecideAt(c, |c.order|);
      assert s.phase == ReadFails;
    }
    forall s | Reachable(c, s) && s.phase == ReadFails
      ensures 3 + c.cells[1] > |c.cells| || c.cells[1] > c.room
    {
      ReachableInv(c, s);
    }
  }

  // ---------- exactly when publication is safe ----------

  /** Whatever the interleaving, the client's accepted bytes are the server's, iff the message does not fit and so
      is never accepted, or no payload byte is stored after the barrier, the magic and the length. */
  lemma FaithfulIff(c: Config)
    requires ValidConfig(c)
    ensures (forall s :: Reachable(c, s) ==> Faithful(c, s)) <==> (Fits(c) ==> Published(c))
  {
    if Fits(c) && !Published(c) {
      var k: nat, t: nat :| t <= |c.order| && Late(c, k, t);
      var s := LateByteRead(c, k, t);
    } else {
      forall s | Reachable(c, s)
        ensures Faithful(c, s)
      {
        ReachableInv(c, s);
      }
    }
  }

  /** An accepted header announces the whole message, and the whole message is read, iff in addition the length is
      stored before the barrier: a header read is not atomic and may fetch the length before the magic. */
  lemma CompleteIff(c: Config)
    requires ValidConfig(c)
    ensures (forall s :: Reachable(c, s) ==> Complete(c, s))
            <==> c.cells[1] == 0 || (StoredBy(c, 1, c.early) && (Fits(c) ==> Published(c)))
  {
    FaithfulIff(c);
    if c.cells[1] > 0 && !StoredBy(c, 1, c.early) {
      var s := EmptyPayloadRead(c);
    } else if c.cells[1] > 0 && Fits(c) && !Published(c) {
      var s :| Reachable(c, s) && !Faithful(c, s);
    } else {
      forall s | Reachable(c, s)
        ensures Complete(c, s)
      {
        ReachableInv(c, s);
      }
    }
  }

  /** Filling the buffer before the barrier makes every interleaving deliver the whole message. */
  lemma FillBeforeBarrier(c: Config, s: State)
    requires ValidConfig(c) && c.early == |c.order| && Reachable(c, s)
    ensures Complete(c, s)
  {
    assert c.order[..|c.order|] == c.order;
    assert StoredBy(c, 1, c.early);
    assert Published(c);
    CompleteIff(c);
  }

  /** So does storing the magic last, for the announced number of bytes. */
  lemma MagicLast(c: Config, s: State)
    requires ValidConfig(c) && c.order != [] && c.order[|c.order| - 1] == 0 && Reachable(c, s)
    ensures Faithful(c, s)
  {
    var n := |c.order|;
    forall k: nat, t: nat | t <= n
      ensures !Late(c, k, t)
    {
      forall j | 0 <= j < t && t < n
        ensures c.order[..t][j] != 0
      {
        assert c.order[..t][j] == c.order[j] != c.order[n - 1];
      }
      assert c.order[..n] == c.order;
    }
    FaithfulIff(c);
  }

  // ---------- the program as written ----------

  /** The server passes the barrier first and then stores the cells in address order: magic, length, sequence
      number, payload.  strncpy cuts the message to the payload area or pads it with zeros. */
  ghost function AsWritten(message: seq<int>, area: nat, room: nat): Config {
    var payload := if |message| <= area then message + seq(area - |message|, (_: nat) => 0) else message[..area];
    Config([MAGIC, |message|, 42] + payload, seq(HEADER + area, (k: nat) => k), 0, room)
  }

  /** With that order a run accepts the magic and reads an incomplete payload, for every message whose first byte
      is not zero. */
  lemma AsWrittenIsNotPublished(message: seq<int>, area: nat, room: nat) returns (s: State)
    requires 0 < |message| <= area && |message| <= room && message[0] != 0
    ensures var c := AsWritten(message, area, room);
      && ValidConfig(c) && |c.cells| == 3 + area && c.cells[..3] == [0x52444D41, |message|, 42]
      && c.cells[3..3 + |message|] == message && (forall k :: 3 + |message| <= k < 3 + area ==> c.cells[k] == 0)
      && c.early == 0 && c.room == room && forall k :: 0 <= k < |c.order| ==> c.order[k] == k
    ensures Reachable(AsWritten(message, area, room), s) && !Faithful(AsWritten(message, area, room), s)
  {
    var c := AsWritten(message, area, room);
    forall cell: nat | cell < |c.cells|
      ensures cell in c.order
    {
      assert c.order[cell] == cell;
    }
    assert c.order[..3] == [0, 1, 2];
    assert StoredBy(c, 0, 3) && StoredBy(c, 1, 3) && !StoredBy(c, 3, 3);
    assert c.cells[3] == message[0];
    s := LateByteRead(c, 0, 3);
  }
}
