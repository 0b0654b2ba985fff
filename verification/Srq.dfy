/** The shared receive queue demo: one pool of buffers serves the receives of many queue pairs.  A buffer is posted
    to the shared receive queue, filled by the adapter for whichever queue pair gets a message, handed over with a
    completion, read and cleared by the program, and posted again. */
module Srq {

  const BUFFER_SIZE: nat := 256

  /** Where the message of a queue pair is: not sent, under way, in a receive buffer, or there and acknowledged. */
  datatype Progress = Unsent | UnderWay | Delivered | Acknowledged

  /** Completions: a send of queue pair qp, or a receive of len bytes into buffer buf on queue pair qp. */
  datatype Wc = SendWc(qp: nat) | RecvWc(buf: nat, qp: nat, len: nat)

  datatype Option<T> = None | Some(value: T)

  /** A received message as the program prints it. */
  datatype Entry = Entry(qp: nat, bytes: seq<char>)

  /** The formatted text, cut to fit, and its NUL. */
  function Message(text: seq<char>): (m: seq<char>)
    ensures 0 < |m| <= BUFFER_SIZE
  {
    text[..if |text| < BUFFER_SIZE then |text| else BUFFER_SIZE - 1] + ['\0']
  }

  function Cleared(): (r: seq<char>)
    ensures |r| == BUFFER_SIZE
  {
    seq(BUFFER_SIZE, (_: nat) => '\0')
  }

  /** The buffers, and the queue pairs, of the receive completions in cq. */
  function Bufs(cq: seq<Wc>): seq<nat> {
    if cq == [] then [] else (if cq[0].RecvWc? then [cq[0].buf] else []) + Bufs(cq[1..])
  }

  function RecvQps(cq: seq<Wc>): seq<nat> {
    if cq == [] then [] else (if cq[0].RecvWc? then [cq[0].qp] else []) + RecvQps(cq[1..])
  }

  function SendQps(cq: seq<Wc>): seq<nat> {
    if cq == [] then [] else (if cq[0].SendWc? then [cq[0].qp] else []) + SendQps(cq[1..])
  }

  /** Peeling the first completion off a concatenation. */
  lemma ConcatTail(a: seq<Wc>, b: seq<Wc>)
    requires a != []
    ensures (a + b)[0] == a[0] && (a + b)[1..] == a[1..] + b
  {
  }

  lemma {:induction false} ConcatBufs(a: seq<Wc>, b: seq<Wc>)
    ensures Bufs(a + b) == Bufs(a) + Bufs(b)
  {
    if a == [] {
      assert a + b == b;
    } else {
      ConcatTail(a, b);
      ConcatBufs(a[1..], b);
    }
  }

  lemma OneBufs(wc: Wc)
    ensures Bufs([wc]) == if wc.RecvWc? then [wc.buf] else []
  {
    assert [wc][1..] == [];
  }

  lemma AppendBufs(cq: seq<Wc>, wc: Wc)
    ensures Bufs(cq + [wc]) == Bufs(cq) + if wc.RecvWc? then [wc.buf] else []
  {
    ConcatBufs(cq, [wc]);
    OneBufs(wc);
  }

  lemma {:induction false} ConcatRecvQps(a: seq<Wc>, b: seq<Wc>)
    ensures RecvQps(a + b) == RecvQps(a) + RecvQps(b)
  {
    if a == [] {
      assert a + b == b;
    } else {
      ConcatTail(a, b);
      ConcatRecvQps(a[1..], b);
    }
  }

  lemma OneRecvQps(wc: Wc)
    ensures RecvQps([wc]) == if wc.RecvWc? then [wc.qp] else []
  {
    assert [wc][1..] == [];
  }

  lemma AppendRecvQps(cq: seq<Wc>, wc: Wc)
    ensures RecvQps(cq + [wc]) == RecvQps(cq) + if wc.RecvWc? then [wc.qp] else []
  {
    ConcatRecvQps(cq, [wc]);
    OneRecvQps(wc);
  }

  lemma {:induction false} ConcatSendQps(a: seq<Wc>, b: seq<Wc>)
    ensures SendQps(a + b) == SendQps(a) + SendQps(b)
  {
    if a == [] {
      assert a + b == b;
    } else {
      ConcatTail(a, b);
      ConcatSendQps(a[1..], b);
    }
  }

  lemma OneSendQps(wc: Wc)
    ensures SendQps([wc]) == if wc.SendWc? then [wc.qp] else []
  {
    assert [wc][1..] == [];
  }

  lemma AppendSendQps(cq: seq<Wc>, wc: Wc)
    ensures SendQps(cq + [wc]) == SendQps(cq) + if wc.SendWc? then [wc.qp] else []
  {
    ConcatSendQps(cq, [wc]);
    OneSendQps(wc);
  }

  /** The queue without its completion i. */
  function Without(cq: seq<Wc>, i: nat): seq<Wc>
    requires i < |cq|
  {
    cq[..i] + cq[i + 1..]
  }

  lemma TakeOutBufs(cq: seq<Wc>, i: nat)
    requires i < |cq|
    ensures multiset(Bufs(cq)) ==
            multiset(Bufs(Without(cq, i))) + multiset(if cq[i].RecvWc? then [cq[i].buf] else [])
  {
    hide Bufs;
    var a, wc, b := cq[..i], cq[i], cq[i + 1..];
    assert cq == a + [wc] + b;
    AppendBufs(a, wc);
    ConcatBufs(a + [wc], b);
    ConcatBufs(a, b);
  }

  lemma TakeOutRecvQps(cq: seq<Wc>, i: nat)
    requires i < |cq|
    ensures multiset(RecvQps(cq)) ==
            multiset(RecvQps(Without(cq, i))) + multiset(if cq[i].RecvWc? then [cq[i].qp] else [])
  {
    hide RecvQps;
    var a, wc, b := cq[..i], cq[i], cq[i + 1..];
    assert cq == a + [wc] + b;
    AppendRecvQps(a, wc);
    ConcatRecvQps(a + [wc], b);
    ConcatRecvQps(a, b);
  }

  lemma TakeOutSendQps(cq: seq<Wc>, i: nat)
    requires i < |cq|
    ensures multiset(SendQps(cq)) ==
            multiset(SendQps(Without(cq, i))) + multiset(if cq[i].SendWc? then [cq[i].qp] else [])
  {
    hide SendQps;
    var a, wc, b := cq[..i], cq[i], cq[i + 1..];
    assert cq == a + [wc] + b;
    AppendSendQps(a, wc);
    ConcatSendQps(a + [wc], b);
    ConcatSendQps(a, b);
  }

  lemma {:induction false} Sizes(cq: seq<Wc>)
    ensures |cq| == |RecvQps(cq)| + |SendQps(cq)| && |Bufs(cq)| == |RecvQps(cq)|
  {
    if cq != [] {
      Sizes(cq[1..]);
    }
  }

  lemma {:induction false} BufsMember(cq: seq<Wc>, wc: Wc)
    requires wc in cq && wc.RecvWc?
    ensures wc.buf in Bufs(cq) && wc.qp in RecvQps(cq)
  {
    if wc != cq[0] {
      BufsMember(cq[1..], wc);
    }
  }

  // ---------- who has a buffer ----------

  /** The numbers below n. */
  function Below(n: nat): (s: set<nat>)
    ensures forall k: nat :: k in s <==> k < n
    ensures |s| == n
  {
    if n == 0 then {} else Below(n - 1) + {n - 1}
  }

  function Held(held: Option<nat>): seq<nat> {
    match held case None => [] case Some(b) => [b]
  }

  /** Conservation: every buffer is, once, in one of three places: posted, filled and not yet handed over, or held
      by the program. */
  ghost predicate Conserved(buffers: nat, srq: seq<nat>, cq: seq<Wc>, held: Option<nat>) {
    multiset(srq) + multiset(Bufs(cq)) + multiset(Held(held)) == multiset(Below(buffers))
  }

  /** What conservation says of a single buffer. */
  lemma ExactlyOnePlace(buffers: nat, srq: seq<nat>, cq: seq<Wc>, held: Option<nat>, b: nat)
    requires Conserved(buffers, srq, cq, held)
    ensures b < buffers <==> b in srq || b in Bufs(cq) || held == Some(b)
    ensures b in srq ==> b !in Bufs(cq) && held != Some(b)
    ensures b in Bufs(cq) ==> held != Some(b)
    ensures |srq| + |Bufs(cq)| + |Held(held)| == buffers
  {
    var all := multiset(srq) + multiset(Bufs(cq)) + multiset(Held(held));
    assert all[b] == multiset(srq)[b] + multiset(Bufs(cq))[b] + multiset(Held(held))[b];
    assert |all| == |multiset(Below(buffers))|;
  }

  lemma MoveFirst(a: seq<nat>, b: seq<nat>)
    requires a != []
    ensures multiset(a) + multiset(b) == multiset(a[1..]) + multiset(b + [a[0]])
  {
    assert a == [a[0]] + a[1..];
  }

  /** A delivery, while the program may be holding a buffer: the oldest posted one is another. */
  lemma ConservedDeliver(buffers: nat, srq: seq<nat>, cq: seq<Wc>, held: Option<nat>, q: nat, len: nat)
    requires Conserved(buffers, srq, cq, held) && srq != []
    ensures Conserved(buffers, srq[1..], cq + [RecvWc(srq[0], q, len)], held)
    ensures held != Some(srq[0]) && srq[0] !in Bufs(cq) && srq[0] < buffers
  {
    ExactlyOnePlace(buffers, srq, cq, held, srq[0]);
    AppendBufs(cq, RecvWc(srq[0], q, len));
    MoveFirst(srq, Bufs(cq));
    hide Bufs;
  }

  lemma ConservedSendDone(buffers: nat, srq: seq<nat>, cq: seq<Wc>, held: Option<nat>, q: nat)
    requires Conserved(buffers, srq, cq, held)
    ensures Conserved(buffers, srq, cq + [SendWc(q)], held)
  {
    AppendBufs(cq, SendWc(q));
  }

  lemma ConservedTake(buffers: nat, srq: seq<nat>, cq: seq<Wc>, i: nat)
    requires Conserved(buffers, srq, cq, None) && i < |cq|
    ensures Conserved(buffers, srq, Without(cq, i), if cq[i].RecvWc? then Some(cq[i].buf) else None)
  {
    TakeOutBufs(cq, i);
  }

  lemma ConservedPost(buffers: nat, srq: seq<nat>, cq: seq<Wc>, b: nat)
    requires Conserved(buffers, srq, cq, Some(b))
    ensures Conserved(buffers, srq + [b], cq, None)
  {
  }

  /** A filled buffer still contains the message of the queue pair that its completion reports. */
  ghost predicate Intact(texts: seq<seq<char>>, pool: seq<seq<char>>, cq: seq<Wc>) {
    && (forall b :: 0 <= b < |pool| ==> |pool[b]| == BUFFER_SIZE)
    && forall wc :: wc in cq && wc.RecvWc? ==> Contains(texts, pool, wc)
  }

  ghost predicate Contains(texts: seq<seq<char>>, pool: seq<seq<char>>, wc: Wc)
    requires wc.RecvWc?
  {
    && wc.qp < |texts| && wc.buf < |pool| && wc.len <= |pool[wc.buf]|
    && pool[wc.buf][..wc.len] == (if |texts[wc.qp]| < 256 then texts[wc.qp] else texts[wc.qp][..255]) + ['\0']
  }

  // ---------- which completions there are ----------

  ghost predicate Arrived(sends: seq<Progress>, q: nat) {
    q < |sends| && (sends[q] == Delivered || sends[q] == Acknowledged)
  }

  ghost function ArrivedSet(sends: seq<Progress>): set<nat> {
    set q: nat | q < |sends| && Arrived(sends, q)
  }

  ghost function AcknowledgedSet(sends: seq<Progress>): set<nat> {
    set q: nat | q < |sends| && sends[q] == Acknowledged
  }

  /** Every delivered message has its receive completion, and every acknowledged one its send completion, once,
      either waiting in the completion queue or handed over. */
  ghost predicate Accounted(sends: seq<Progress>, cq: seq<Wc>, recvLog: seq<nat>, sendLog: seq<nat>) {
    && multiset(RecvQps(cq)) + multiset(recvLog) == multiset(ArrivedSet(sends))
    && multiset(SendQps(cq)) + multiset(sendLog) == multiset(AcknowledgedSet(sends))
  }

  lemma MultisetAdd(s: set<nat>, q: nat)
    requires q !in s
    ensures multiset(s + {q}) == multiset(s) + multiset{q}
  {
  }

  lemma AccountedPost(sends: seq<Progress>, cq: seq<Wc>, recvLog: seq<nat>, sendLog: seq<nat>, q: nat)
    requires Accounted(sends, cq, recvLog, sendLog) && q < |sends| && sends[q] == Unsent
    ensures Accounted(sends[q := UnderWay], cq, recvLog, sendLog)
  {
  }

  lemma AccountedDeliver(sends: seq<Progress>, cq: seq<Wc>, recvLog: seq<nat>, sendLog: seq<nat>, b: nat, q: nat,
                         len: nat)
    requires Accounted(sends, cq, recvLog, sendLog) && q < |sends| && sends[q] == UnderWay
    ensures Accounted(sends[q := Delivered], cq + [RecvWc(b, q, len)], recvLog, sendLog)
  {
    AppendRecvQps(cq, RecvWc(b, q, len));
    AppendSendQps(cq, RecvWc(b, q, len));
    assert ArrivedSet(sends[q := Delivered]) == ArrivedSet(sends) + {q};
    MultisetAdd(ArrivedSet(sends), q);
    assert AcknowledgedSet(sends[q := Delivered]) == AcknowledgedSet(sends);
  }

  lemma AccountedAcknowledge(sends: seq<Progress>, cq: seq<Wc>, recvLog: seq<nat>, sendLog: seq<nat>, q: nat)
    requires Accounted(sends, cq, recvLog, sendLog) && q < |sends| && sends[q] == Delivered
    ensures Accounted(sends[q := Acknowledged], cq + [SendWc(q)], recvLog, sendLog)
  {
    AppendRecvQps(cq, SendWc(q));
    AppendSendQps(cq, SendWc(q));
    assert ArrivedSet(sends[q := Acknowledged]) == ArrivedSet(sends);
    assert AcknowledgedSet(sends[q := Acknowledged]) == AcknowledgedSet(sends) + {q};
    MultisetAdd(AcknowledgedSet(sends), q);
  }

  lemma AccountedTake(sends: seq<Progress>, cq: seq<Wc>, recvLog: seq<nat>, sendLog: seq<nat>, i: nat)
    requires Accounted(sends, cq, recvLog, sendLog) && i < |cq|
    ensures Accounted(sends, Without(cq, i), if cq[i].RecvWc? then recvLog + [cq[i].qp] else recvLog,
                      if cq[i].SendWc? then sendLog + [cq[i].qp] else sendLog)
  {
    hide RecvQps, SendQps, ArrivedSet, AcknowledgedSet, Without;
    ReceiveTaken(multiset(ArrivedSet(sends)), cq, recvLog, i);
    SendTaken(multiset(AcknowledgedSet(sends)), cq, sendLog, i);
  }

  lemma ReceiveTaken(all: multiset<nat>, cq: seq<Wc>, log: seq<nat>, i: nat)
    requires i < |cq| && multiset(RecvQps(cq)) + multiset(log) == all
    ensures multiset(RecvQps(Without(cq, i))) + multiset(if cq[i].RecvWc? then log + [cq[i].qp] else log) == all
  {
    hide RecvQps, Without;
    TakeOutRecvQps(cq, i);
    if cq[i].RecvWc? {
      MoveOver(all, RecvQps(cq), RecvQps(Without(cq, i)), [cq[i].qp], log);
    }
  }

  lemma SendTaken(all: multiset<nat>, cq: seq<Wc>, log: seq<nat>, i: nat)
    requires i < |cq| && multiset(SendQps(cq)) + multiset(log) == all
    ensures multiset(SendQps(Without(cq, i))) + multiset(if cq[i].SendWc? then log + [cq[i].qp] else log) == all
  {
    hide SendQps, Without;
    TakeOutSendQps(cq, i);
    if cq[i].SendWc? {
      MoveOver(all, SendQps(cq), SendQps(Without(cq, i)), [cq[i].qp], log);
    }
  }

  /** Part of what is waiting goes over into the log. */
  lemma MoveOver(all: multiset<nat>, waiting: seq<nat>, rest: seq<nat>, part: seq<nat>, log: seq<nat>)
    requires multiset(waiting) + multiset(log) == all && multiset(waiting) == multiset(rest) + multiset(part)
    ensures multiset(rest) + multiset(log + part) == all
  {
  }

  /** Two completions per queue pair at most; and when there have been two for each, all messages have arrived and
      been acknowledged and no completion is left. */
  lemma AccountedTotal(sends: seq<Progress>, cq: seq<Wc>, recvLog: seq<nat>, sendLog: seq<nat>)
    requires Accounted(sends, cq, recvLog, sendLog)
    ensures |recvLog| <= |sends| && |sendLog| <= |sends|
    ensures |recvLog| + |RecvQps(cq)| <= |sends|
    ensures |recvLog| + |sendLog| == 2 * |sends| ==>
              && cq == [] && |recvLog| == |sends|
              && multiset(recvLog) == multiset(Below(|sends|)) == multiset(sendLog)
    ensures cq == [] && (forall q: nat :: q < |sends| ==> sends[q] == Acknowledged) ==>
              |recvLog| + |sendLog| == 2 * |sends|
  {
    var all, a, d := Below(|sends|), ArrivedSet(sends), AcknowledgedSet(sends);
    Subset(a, all);
    Subset(d, all);
    assert |multiset(RecvQps(cq)) + multiset(recvLog)| == |a|;
    assert |multiset(SendQps(cq)) + multiset(sendLog)| == |d|;
    Sizes(cq);
    assert (forall q: nat :: q < |sends| ==> sends[q] == Acknowledged) ==> a == d == all;
  }

  lemma {:induction false} Subset(a: set<nat>, b: set<nat>)
    requires a <= b
    ensures |a| <= |b| && (|a| == |b| ==> a == b)
  {
    assert b == a + (b - a);
  }

  /** Queue pairs of the messages in a log. */
  function Qps(log: seq<Entry>): seq<nat> {
    seq(|log|, i requires 0 <= i < |log| => log[i].qp)
  }

  /** Filled and held buffers have had a message each. */
  lemma PostedBound(buffers: nat, srq: seq<nat>, cq: seq<Wc>, held: Option<nat>, sends: seq<Progress>,
                    recvLog: seq<nat>, sendLog: seq<nat>)
    requires Conserved(buffers, srq, cq, held) && Accounted(sends, cq, recvLog, sendLog)
    requires held.Some? ==> recvLog != []
    ensures |srq| >= buffers - |sends|
  {
    ExactlyOnePlace(buffers, srq, cq, held, 0);
    AccountedTotal(sends, cq, recvLog, sendLog);
    Sizes(cq);
  }

  // ---------- the program and its adapter ----------

  class Demo {
    const texts: seq<seq<char>>      // one message per queue pair
    const buffers: nat               // buffers in the pool
    const capacity: nat              // receives that the shared receive queue can hold
    var pool: seq<seq<char>>
    var srq: seq<nat>                // posted buffers, oldest first
    var cq: seq<Wc>
    var sends: seq<Progress>
    var idle: nat                    // fair progress: how many more polls may come back empty
    ghost var recvLog: seq<nat>      // queue pairs whose receive, or send, completion has been handed over
    ghost var sendLog: seq<nat>
    ghost var low: nat               // the fewest posted buffers since the pool was filled

    ghost predicate Valid(held: Option<nat>)
      reads this
    {
      && |pool| == buffers && |sends| == |texts|
      && Conserved(buffers, srq, cq, held) && Intact(texts, pool, cq) && Accounted(sends, cq, recvLog, sendLog)
      && buffers <= capacity && buffers - |texts| <= low <= |srq|
      && (held.Some? ==> recvLog != [])
    }

    /** What the adapter may do leaves a held buffer alone and sends nothing that was not sent. */
    twostate predicate Untouched(held: Option<nat>)
      reads this
    {
      && |pool| == |old(pool)| && |sends| == |old(sends)|
      && (held.Some? && held.value < |pool| ==> pool[held.value] == old(pool)[held.value])
      && (forall q :: 0 <= q < |sends| ==> (sends[q] == Unsent <==> old(sends)[q] == Unsent))
    }

    /** The state after initialisation: the whole pool posted in order, nothing sent. */
    constructor (texts: seq<seq<char>>, buffers: nat, capacity: nat)
      requires buffers <= capacity
      ensures Valid(None) && this.texts == texts && this.buffers == buffers && this.capacity == capacity
      ensures recvLog == sendLog == [] && forall q :: 0 <= q < |texts| ==> sends[q] == Unsent
    {
      this.texts, this.buffers, this.capacity := texts, buffers, capacity;
      pool := seq(buffers, (_: nat) => Cleared());
      srq := seq(buffers, (b: nat) => b);
      cq, idle := [], 0;
      sends := seq(|texts|, (_: nat) => Unsent);
      recvLog, sendLog, low := [], [], buffers;
      new;
      InOrder(buffers);
      assert ArrivedSet(sends) == {} && AcknowledgedSet(sends) == {};
    }

    /** ibv_post_srq_recv: gives a held buffer to the shared receive queue unless that is full. */
    method PostRecv(b: nat) returns (ok: bool)
      requires Valid(Some(b))
      modifies this`srq
      ensures ok && srq == old(srq) + [b] && |srq| <= capacity
      ensures Valid(None)
    {
      ExactlyOnePlace(buffers, srq, cq, Some(b), b);
      ok := |srq| < capacity;
      if ok {
        ConservedPost(buffers, srq, cq, b);
        srq := srq + [b];
      }
    }

    /** ibv_post_send of the message of queue pair q. */
    method PostSend(q: nat)
      requires Valid(None) && q < |sends| && sends[q] == Unsent
      modifies this`sends
      ensures Valid(None) && sends == old(sends)[q := UnderWay]
    {
      AccountedPost(sends, cq, recvLog, sendLog, q);
      sends := sends[q := UnderWay];
    }

    /** The adapter puts the message of queue pair q into the oldest posted buffer. */
    method Deliver(ghost held: Option<nat>, q: nat)
      requires Valid(held) && q < |sends| && sends[q] == UnderWay && srq != []
      modifies this`sends, this`srq, this`pool, this`cq, this`low
      ensures Valid(held) && Untouched(held)
      ensures sends == old(sends)[q := Delivered] && srq == old(srq)[1..] && cq != []
    {
      hide Conserved, Accounted, Intact, Message;
      var b, m := srq[0], Message(texts[q]);
      var wc := RecvWc(b, q, |m|);
      ConservedDeliver(buffers, srq, cq, held, q, |m|);
      FullSize(texts, pool, cq, b);
      AccountedDeliver(sends, cq, recvLog, sendLog, b, q, |m|);
      IntactDeliver(texts, pool, cq, wc);
      pool := pool[b := m + pool[b][|m|..]];
      srq, cq, sends := srq[1..], cq + [wc], sends[q := Delivered];
      low := if |srq| < low then |srq| else low;
      PostedBound(buffers, srq, cq, held, sends, recvLog, sendLog);
    }

    /** The send of queue pair q completes. */
    method Acknowledge(ghost held: Option<nat>, q: nat)
      requires Valid(held) && q < |sends| && sends[q] == Delivered
      modifies this`sends, this`cq
      ensures Valid(held) && Untouched(held) && sends == old(sends)[q := Acknowledged] && cq != []
    {
      hide Conserved, Accounted, Intact;
      ConservedSendDone(buffers, srq, cq, held, q);
      AccountedAcknowledge(sends, cq, recvLog, sendLog, q);
      IntactSendDone(texts, pool, cq, q);
      sends, cq := sends[q := Acknowledged], cq + [SendWc(q)];
    }

    /** Whatever the adapter can do next for queue pair q. */
    method Advance(ghost held: Option<nat>, q: nat)
      requires Valid(held)
      modifies this`sends, this`srq, this`pool, this`cq, this`low
      ensures Valid(held) && Untouched(held)
      ensures cq == old(cq) || cq != []
      ensures q < |sends| && old(sends)[q] != Unsent && old(sends)[q] != Acknowledged && old(srq) != [] ==> cq != []
    {
      hide Conserved, Accounted, Intact;
      if q < |sends| && sends[q] == UnderWay && srq != [] {
        Deliver(held, q);
      } else if q < |sends| && sends[q] == Delivered {
        Acknowledge(held, q);
      }
    }

    /** The adapter takes any number of turns for any queue pairs. */
    method Turns(ghost held: Option<nat>)
      requires Valid(held)
      modifies this`sends, this`srq, this`pool, this`cq, this`low
      ensures Valid(held) && Untouched(held)
    {
      hide Conserved, Accounted, Intact;
      var turns: nat :| turns >= 0;
      for k := 0 to turns
        invariant Valid(held) && Untouched(held)
      {
        var q: nat :| q >= 0;
        Advance(held, q);
      }
    }

    /** A completion arrives if any is outstanding: an empty completion queue means that no buffer is filled, so
        one is posted. */
    method ForceTurn()
      requires Valid(None) && NoneUnsent(sends) && buffers > 0 && |recvLog| + |sendLog| < 2 * |texts|
      modifies this`sends, this`srq, this`pool, this`cq, this`low
      ensures Valid(None) && NoneUnsent(sends) && cq != []
    {
      if cq == [] {
        AccountedTotal(sends, cq, recvLog, sendLog);
        ExactlyOnePlace(buffers, srq, cq, None, 0);
        var q: nat :| q < |sends| && sends[q] != Acknowledged;
        Advance(None, q);
      }
    }

    /** Hands over one of the completions, and with a receive its buffer.  The send and the receive of a message
        complete on different queue pairs, and nothing orders their completions. */
    method Take() returns (wc: Wc)
      requires Valid(None) && cq != []
      modifies this`cq, this`recvLog, this`sendLog
      ensures exists i: nat :: i < |old(cq)| && wc == old(cq)[i] && cq == Without(old(cq), i)
      ensures wc.SendWc? ==> Valid(None) && recvLog == old(recvLog) && sendLog == old(sendLog) + [wc.qp]
      ensures wc.RecvWc? ==> Valid(Some(wc.buf)) && recvLog == old(recvLog) + [wc.qp] && sendLog == old(sendLog)
      ensures wc.RecvWc? ==> Contains(texts, pool, wc)
    {
      hide Conserved, Accounted, Intact, Contains, Without;
      var i: nat :| i < |cq|;
      wc := cq[i];
      IntactTake(texts, pool, cq, i);
      ConservedTake(buffers, srq, cq, i);
      AccountedTake(sends, cq, recvLog, sendLog, i);
      if wc.RecvWc? {
        recvLog := recvLog + [wc.qp];
      } else {
        sendLog := sendLog + [wc.qp];
      }
      cq := Without(cq, i);
    }

    /** ibv_poll_cq for one completion: hands over any one of those there are, or none; while some are outstanding it
        does not stay empty for ever. */
    method PollCq() returns (wc: Option<Wc>)
      requires Valid(None) && NoneUnsent(sends) && buffers > 0 && |recvLog| + |sendLog| < 2 * |texts|
      modifies this`sends, this`srq, this`pool, this`cq, this`low, this`idle, this`recvLog, this`sendLog
      ensures NoneUnsent(sends)
      ensures wc == None ==> Valid(None) && recvLog == old(recvLog) && sendLog == old(sendLog) && idle < old(idle)
      ensures wc.Some? && wc.value.SendWc? ==>
                Valid(None) && recvLog == old(recvLog) && sendLog == old(sendLog) + [wc.value.qp]
      ensures wc.Some? && wc.value.RecvWc? ==>
                && Valid(Some(wc.value.buf)) && recvLog == old(recvLog) + [wc.value.qp] && sendLog == old(sendLog)
                && Contains(texts, pool, wc.value)
    {
      hide Conserved, Intact, Accounted, Contains;
      Turns(None);
      var empty: bool := *;
      if idle > 0 && (empty || cq == []) {
        idle := idle - 1;
        return None;
      }
      ForceTurn();
      var patience: nat :| patience >= 0;
      idle := patience;
      var first := Take();
      wc := Some(first);
    }

    /** Clears a held buffer. */
    method Clear(b: nat)
      requires Valid(Some(b))
      modifies this`pool
      ensures Valid(Some(b)) && |pool| == |old(pool)| && b < |pool| && pool == old(pool)[b := Cleared()]
    {
      ExactlyOnePlace(buffers, srq, cq, Some(b), b);
      IntactClear(texts, pool, cq, b);
      hide Conserved, Accounted, Intact;
      pool := pool[b := Cleared()];
    }

    /** Reads a held buffer, clears it and posts it again, while messages keep arriving in other buffers.  The text is
        read whole if it fits with its NUL, and its first 255 characters if not. */
    method Consume(wc: Wc) returns (entry: Entry)
      requires wc.RecvWc? && Valid(Some(wc.buf)) && Contains(texts, pool, wc) && NoneUnsent(sends)
      modifies this`sends, this`srq, this`pool, this`cq, this`low
      ensures Valid(None) && NoneUnsent(sends)
      ensures wc.qp < |texts|
      ensures var text := texts[wc.qp];
        entry == Entry(wc.qp, (if |text| < 256 then text else text[..255]) + ['\0'])
      ensures srq != [] && srq[|srq| - 1] == wc.buf
      ensures wc.buf < |pool| && |pool[wc.buf]| == 256 && forall j :: 0 <= j < 256 ==> pool[wc.buf][j] == '\0'
    {
      hide Conserved, Accounted, Intact, Message;
      Turns(Some(wc.buf));
      assert Contains(texts, pool, wc);
      entry := Entry(wc.qp, pool[wc.buf][..wc.len]);
      Turns(Some(wc.buf));
      Clear(wc.buf);
      Turns(Some(wc.buf));
      var posted := PostRecv(wc.buf);
    }

    /** The messages start arriving while the later ones are still being posted. */
    method SendAll()
      requires Valid(None) && forall q :: 0 <= q < |sends| ==> sends[q] == Unsent
      modifies this`sends, this`srq, this`pool, this`cq, this`low
      ensures Valid(None) && NoneUnsent(sends)
    {
      hide Conserved, Intact, Accounted;
      var i := 0;
      while i < |texts|
        invariant i <= |texts| && Valid(None)
        invariant forall q :: 0 <= q < |sends| ==> (sends[q] == Unsent <==> i <= q)
      {
        PostSend(i);
        Turns(None);
        i := i + 1;
      }
    }

    /** One message on every queue pair, then as many completions as messages sent and received.  Whatever the order
        of completions, the loop ends with one receive per queue pair, each read intact before its buffer is posted
        again, all buffers back in the shared receive queue, which never held fewer than buffers - queue pairs. */
    method RunDemo() returns (completed: nat, recvCount: nat, log: seq<Entry>)
      requires Valid(None) && buffers > 0 && recvLog == sendLog == []
      requires forall q :: 0 <= q < |sends| ==> sends[q] == Unsent
      modifies this
      ensures Valid(None) && cq == []
      ensures completed == 2 * |texts| && recvCount == |texts|
      ensures multiset(Qps(log)) == multiset(Below(|texts|))
      ensures forall e :: e in log ==>
                && e.qp < |texts|
                && e.bytes == (if |texts[e.qp]| < 256 then texts[e.qp] else texts[e.qp][..255]) + ['\0']
      ensures multiset(srq) == multiset(Below(buffers))
      ensures low >= buffers - |texts|
    {
      hide Conserved, Intact, Accounted, Contains;
      SendAll();
      var expected := |texts| * 2;
      completed, recvCount, log := 0, 0, [];
      while completed < expected
        invariant Valid(None) && NoneUnsent(sends)
        invariant completed == |recvLog| + |sendLog| <= expected && recvCount == |recvLog|
        invariant Qps(log) == recvLog
        invariant forall e :: e in log ==>
                    && e.qp < |texts|
                    && e.bytes == (if |texts[e.qp]| < 256 then texts[e.qp] else texts[e.qp][..255]) + ['\0']
        decreases expected - completed, idle
      {
        var wc := PollCq();
        if wc == None {
          continue;
        }
        completed := completed + 1;
        AccountedTotal(sends, cq, recvLog, sendLog);
        if wc.value.RecvWc? {
          recvCount := recvCount + 1;
          var entry := Consume(wc.value);
          LogAppend(log, entry);
          log := log + [entry];
        }
      }
      AccountedTotal(sends, cq, recvLog, sendLog);
      AllPosted(buffers, srq);
    }
  }

  ghost predicate NoneUnsent(sends: seq<Progress>) {
    forall q :: 0 <= q < |sends| ==> sends[q] != Unsent
  }

  lemma {:induction false} InOrder(n: nat)
    ensures multiset(seq(n, (b: nat) => b)) == multiset(Below(n))
  {
    if n > 0 {
      InOrder(n - 1);
      assert seq(n, (b: nat) => b) == seq(n - 1, (b: nat) => b) + [n - 1];
      MultisetAdd(Below(n - 1), n - 1);
    }
  }

  /** Filling a posted buffer leaves the buffers that are already filled alone. */
  lemma IntactDeliver(texts: seq<seq<char>>, pool: seq<seq<char>>, cq: seq<Wc>, wc: Wc)
    requires Intact(texts, pool, cq) && wc.RecvWc? && wc.qp < |texts| && wc.buf < |pool|
    requires wc.len == |Message(texts[wc.qp])| && wc.buf !in Bufs(cq)
    ensures Intact(texts, pool[wc.buf := Message(texts[wc.qp]) + pool[wc.buf][wc.len..]], cq + [wc])
  {
  }

  lemma FullSize(texts: seq<seq<char>>, pool: seq<seq<char>>, cq: seq<Wc>, b: nat)
    requires Intact(texts, pool, cq) && b < |pool|
    ensures |pool[b]| == BUFFER_SIZE
  {
  }

  lemma IntactSendDone(texts: seq<seq<char>>, pool: seq<seq<char>>, cq: seq<Wc>, q: nat)
    requires Intact(texts, pool, cq)
    ensures Intact(texts, pool, cq + [SendWc(q)])
  {
  }

  lemma IntactTake(texts: seq<seq<char>>, pool: seq<seq<char>>, cq: seq<Wc>, i: nat)
    requires Intact(texts, pool, cq) && i < |cq|
    ensures Intact(texts, pool, Without(cq, i)) && (cq[i].RecvWc? ==> Contains(texts, pool, cq[i]))
  {
    assert forall wc :: wc in Without(cq, i) ==> wc in cq;
  }

  lemma AllPosted(buffers: nat, srq: seq<nat>)
    requires Conserved(buffers, srq, [], None)
    ensures multiset(srq) == multiset(Below(buffers))
  {
  }

  lemma LogAppend(log: seq<Entry>, entry: Entry)
    ensures Qps(log + [entry]) == Qps(log) + [entry.qp]
  {
  }

  lemma IntactClear(texts: seq<seq<char>>, pool: seq<seq<char>>, cq: seq<Wc>, b: nat)
    requires Intact(texts, pool, cq) && b < |pool| && b !in Bufs(cq)
    ensures Intact(texts, pool[b := Cleared()], cq)
  {
  }
}
