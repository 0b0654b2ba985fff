/** The receiver of the datagram example: a ring of buffers cut out of one block of memory.

    A datagram may be lost on its way, and is lost if it arrives when no buffer is posted.  One that arrives goes into
    the oldest posted buffer, behind a header of 40 bytes. */
module UdPool {

  import opened Srq
  import WriteNotify

  const GRH_SIZE: nat := 40
  const BUF_SIZE: nat := GRH_SIZE + BUFFER_SIZE
  const NUM_RECV_BUFS: nat := 16

  /** A datagram may get lost on its way, or arrive and be dropped for want of a posted buffer. */
  datatype Fate = Travelling | Received | Lost | Dropped

  /** Where buffer b starts. */
  function Slot(b: nat): nat {
    b * BUF_SIZE
  }

  /** The bytes of buffer b. */
  function Buffer(pool: seq<char>, b: nat): (r: seq<char>)
    requires |pool| == NUM_RECV_BUFS * BUF_SIZE && b < NUM_RECV_BUFS
    ensures |r| == BUF_SIZE
  {
    pool[Slot(b)..Slot(b) + BUF_SIZE]
  }

  /** Buffers do not share bytes, and all of them lie in the block. */
  lemma SlotsDisjoint(a: nat, x: nat, b: nat, y: nat)
    requires x < 296 && y < 296
    ensures Slot(a) + x == Slot(b) + y <==> a == b && x == y
    ensures b < 16 ==> Slot(b) + 296 <= 16 * 296 == NUM_RECV_BUFS * BUF_SIZE
  {
  }

  function ReceivedSet(fates: seq<Fate>): set<nat> {
    set k: nat | k < |fates| && fates[k] == Received
  }

  function TravellingSet(fates: seq<Fate>): set<nat> {
    set k: nat | k < |fates| && fates[k] == Travelling
  }

  /** Every arrived datagram has one completion, waiting or handed over. */
  ghost predicate Balanced(fates: seq<Fate>, cq: seq<Wc>, recvLog: seq<nat>) {
    && multiset(RecvQps(cq)) + multiset(recvLog) == multiset(ReceivedSet(fates))
    && forall wc :: wc in cq ==> wc.RecvWc?
  }

  /** The buffer of a completion holds its datagram behind the header.  The queue pair field of a completion stands
      for the number of the datagram. */
  ghost predicate InSlot(texts: seq<seq<char>>, pool: seq<char>, wc: Wc) {
    && wc.RecvWc? && wc.qp < |texts| && wc.buf < NUM_RECV_BUFS && |pool| == NUM_RECV_BUFS * BUF_SIZE
    && var m := (if |texts[wc.qp]| < 256 then texts[wc.qp] else texts[wc.qp][..255]) + ['\0'];
       wc.len == 40 + |m| && Buffer(pool, wc.buf)[40..wc.len] == m
  }

  ghost predicate Filled(texts: seq<seq<char>>, pool: seq<char>, cq: seq<Wc>) {
    forall wc :: wc in cq ==> InSlot(texts, pool, wc)
  }

  /** What the arrival of datagram k does to the posted buffers, the completions and the fates. */
  ghost predicate Arrival(texts: seq<seq<char>>, rq: seq<nat>, cq: seq<Wc>, fates: seq<Fate>, k: nat,
                          rq': seq<nat>, cq': seq<Wc>, fates': seq<Fate>)
  {
    && k < |fates| == |texts| && fates[k] == Travelling
    && if rq == [] then rq' == rq && cq' == cq && fates' == fates[k := Dropped]
       else && rq' == rq[1..] && cq' == cq + [RecvWc(rq[0], k, GRH_SIZE + |Message(texts[k])|)]
            && fates' == fates[k := Received]
  }

  /** One buffer more. */
  lemma ConservedGrow(n: nat, rq: seq<nat>, cq: seq<Wc>)
    requires Conserved(n, rq, cq, None)
    ensures Conserved(n + 1, rq, cq, Some(n))
  {
    MultisetAdd(Below(n), n);
    assert Below(n + 1) == Below(n) + {n};
  }

  lemma BalancedArrive(fates: seq<Fate>, cq: seq<Wc>, recvLog: seq<nat>, b: nat, k: nat, len: nat)
    requires Balanced(fates, cq, recvLog) && k < |fates| && fates[k] == Travelling
    ensures Balanced(fates[k := Received], cq + [RecvWc(b, k, len)], recvLog)
  {
    AppendRecvQps(cq, RecvWc(b, k, len));
    AppendBufs(cq, RecvWc(b, k, len));
    assert ReceivedSet(fates[k := Received]) == ReceivedSet(fates) + {k};
    MultisetAdd(ReceivedSet(fates), k);
  }

  lemma BalancedLose(fates: seq<Fate>, cq: seq<Wc>, recvLog: seq<nat>, k: nat, fate: Fate)
    requires Balanced(fates, cq, recvLog) && k < |fates| && fates[k] == Travelling && fate != Received
    ensures Balanced(fates[k := fate], cq, recvLog)
  {
    assert ReceivedSet(fates[k := fate]) == ReceivedSet(fates);
  }

  lemma BalancedTake(fates: seq<Fate>, cq: seq<Wc>, recvLog: seq<nat>)
    requires Balanced(fates, cq, recvLog) && cq != []
    ensures cq[0].RecvWc? && Balanced(fates, cq[1..], recvLog + [cq[0].qp])
  {
  }

  /** What was handed over arrived, no datagram twice. */
  lemma BalancedTotal(fates: seq<Fate>, cq: seq<Wc>, recvLog: seq<nat>)
    requires Balanced(fates, cq, recvLog)
    ensures multiset(recvLog) <= multiset(ReceivedSet(fates))
    ensures |recvLog| + |cq| == |ReceivedSet(fates)|
  {
    Sizes(cq);
    NoSends(cq);
    assert |multiset(RecvQps(cq)) + multiset(recvLog)| == |ReceivedSet(fates)|;
  }

  lemma {:induction false} NoSends(cq: seq<Wc>)
    requires forall wc :: wc in cq ==> wc.RecvWc?
    ensures SendQps(cq) == []
  {
    if cq != [] {
      assert cq[0] in cq;
      NoSends(cq[1..]);
    }
  }

  /** Filling a posted buffer leaves the filled ones alone. */
  lemma FilledArrive(texts: seq<seq<char>>, pool: seq<char>, pool': seq<char>, cq: seq<Wc>, wc: Wc)
    requires Filled(texts, pool, cq) && InSlot(texts, pool', wc) && |pool| == |pool'|
    requires wc.buf !in Bufs(cq)
    requires forall b: nat :: b < NUM_RECV_BUFS && b != wc.buf ==> Buffer(pool', b) == Buffer(pool, b)
    ensures Filled(texts, pool', cq + [wc])
  {
  }

  lemma FilledTake(texts: seq<seq<char>>, pool: seq<char>, cq: seq<Wc>)
    requires Filled(texts, pool, cq) && cq != []
    ensures Filled(texts, pool, cq[1..]) && InSlot(texts, pool, cq[0])
  {
  }

  /** What printing from behind the header as a C string yields. */
  function Printed(slot: seq<char>): (s: seq<char>)
    requires |slot| == BUF_SIZE
  {
    slot[GRH_SIZE..][..WriteNotify.Length(slot[GRH_SIZE..])]
  }

  /** Whatever an earlier datagram has left behind it, a datagram prints as its own text, cut to fit. */
  lemma PrintedIs(slot: seq<char>, text: seq<char>)
    requires |slot| == 296 && '\0' !in text
    requires var m := (if |text| < 256 then text else text[..255]) + ['\0']; slot[40..40 + |m|] == m
    ensures Printed(slot) == if |text| < 256 then text else text[..255]
  {
    var m, s := Message(text), slot[GRH_SIZE..];
    var n := |m| - 1;
    assert s[..n + 1] == slot[40..40 + |m|] == m;
    assert s[..n] == m[..n] && s[n] == m[n];
    WriteNotify.LengthIs(s, n);
  }

  lemma OneBuffer(p: seq<char>, q: seq<char>, b: nat, data: seq<char>)
    requires |p| == |q| == NUM_RECV_BUFS * BUF_SIZE && b < NUM_RECV_BUFS && |data| <= BUF_SIZE
    requires forall i :: 0 <= i < |p| ==> q[i] == if Slot(b) <= i < Slot(b) + |data| then data[i - Slot(b)] else p[i]
    ensures Buffer(q, b) == data + Buffer(p, b)[|data|..]
    ensures forall a: nat :: a < NUM_RECV_BUFS && a != b ==> Buffer(q, a) == Buffer(p, a)
  {
  }

  /** After the write the buffer holds the datagram. */
  lemma Written(texts: seq<seq<char>>, p: seq<char>, q: seq<char>, wc: Wc, header: seq<char>)
    requires |p| == |q| == NUM_RECV_BUFS * BUF_SIZE && wc.RecvWc? && wc.buf < NUM_RECV_BUFS && wc.qp < |texts|
    requires |header| == GRH_SIZE && wc.len == GRH_SIZE + |Message(texts[wc.qp])|
    requires Buffer(q, wc.buf) == header + Message(texts[wc.qp]) + Buffer(p, wc.buf)[wc.len..]
    ensures InSlot(texts, q, wc)
  {
  }

  /** The receiver and its adapter. */
  class Receiver {
    const texts: seq<seq<char>>
    const pool: array<char>
    var rq: seq<nat>
    var cq: seq<Wc>
    var fates: seq<Fate>
    ghost var recvLog: seq<nat>

    /** The first n buffers are in circulation. */
    ghost predicate Valid(n: nat, held: Option<nat>)
      reads this, pool
    {
      && pool.Length == NUM_RECV_BUFS * BUF_SIZE && n <= NUM_RECV_BUFS && |fates| == |texts|
      && Conserved(n, rq, cq, held) && Balanced(fates, cq, recvLog) && Filled(texts, pool[..], cq)
    }

    constructor (texts: seq<seq<char>>)
      ensures Valid(0, None) && this.texts == texts && fresh(pool) && recvLog == []
    {
      this.texts := texts;
      pool := new char[NUM_RECV_BUFS * BUF_SIZE](_ => '\0');
      rq, cq, recvLog := [], [], [];
      fates := seq(|texts|, (_: nat) => Travelling);
      new;
      assert ReceivedSet(fates) == {};
    }

    /** What the adapter may do leaves a held buffer alone. */
    twostate predicate Untouched(held: Option<nat>)
      reads this, pool
    {
      pool.Length == NUM_RECV_BUFS * BUF_SIZE && held.Some? && held.value < NUM_RECV_BUFS ==>
        Buffer(pool[..], held.value) == old(Buffer(pool[..], held.value))
    }

    /** Datagram k is lost on its way. */
    method Lose(n: nat, ghost held: Option<nat>, k: nat)
      requires Valid(n, held) && k < |fates| && fates[k] == Travelling
      modifies this`fates
      ensures Valid(n, held) && Untouched(held) && fates == old(fates)[k := Lost]
    {
      BalancedLose(fates, cq, recvLog, k, Lost);
      fates := fates[k := Lost];
    }

    /** The adapter writes header and datagram into a buffer, and nowhere else. */
    method Write(b: nat, header: seq<char>, m: seq<char>)
      requires b < NUM_RECV_BUFS && |header| == GRH_SIZE && |m| <= BUFFER_SIZE
      requires pool.Length == NUM_RECV_BUFS * BUF_SIZE
      modifies pool
      ensures Buffer(pool[..], b) == header + m + old(Buffer(pool[..], b)[GRH_SIZE + |m|..])
      ensures forall a: nat :: a < NUM_RECV_BUFS && a != b ==> Buffer(pool[..], a) == old(Buffer(pool[..], a))
    {
      ghost var before := pool[..];
      var data := header + m;
      forall i | Slot(b) <= i < Slot(b) + |data| {
        pool[i] := data[i - Slot(b)];
      }
      OneBuffer(before, pool[..], b, data);
    }

    /** Datagram k goes into the oldest posted buffer. */
    method FillOldest(n: nat, ghost held: Option<nat>, k: nat, header: seq<char>)
      requires Valid(n, held) && k < |fates| && fates[k] == Travelling && |header| == GRH_SIZE && rq != []
      modifies this`fates, this`rq, this`cq, pool
      ensures Valid(n, held) && Untouched(held) && fates == old(fates)[k := Received] && rq == old(rq)[1..]
      ensures cq == old(cq) + [RecvWc(old(rq)[0], k, GRH_SIZE + |Message(texts[k])|)]
    {
      hide Conserved, Balanced, Filled, Buffer, Message, InSlot;
      ghost var before := pool[..];
      var b, m := rq[0], Message(texts[k]);
      var wc := RecvWc(b, k, GRH_SIZE + |m|);
      ConservedDeliver(n, rq, cq, held, k, wc.len);
      BalancedArrive(fates, cq, recvLog, b, k, wc.len);
      Write(b, header, m);
      Written(texts, before, pool[..], wc, header);
      FilledArrive(texts, before, pool[..], cq, wc);
      rq, cq, fates := rq[1..], cq + [wc], fates[k := Received];
    }

    /** Datagram k arrives: into the oldest posted buffer, or, if none is posted, nowhere. */
    method Arrive(n: nat, ghost held: Option<nat>, k: nat, header: seq<char>)
      requires Valid(n, held) && k < |fates| && fates[k] == Travelling && |header| == GRH_SIZE
      modifies this`fates, this`rq, this`cq, pool
      ensures Valid(n, held) && Untouched(held)
      ensures Arrival(texts, old(rq), old(cq), old(fates), k, rq, cq, fates)
    {
      hide Conserved, Balanced, Filled, Message;
      if rq == [] {
        BalancedLose(fates, cq, recvLog, k, Dropped);
        fates := fates[k := Dropped];
      } else {
        FillOldest(n, held, k, header);
      }
    }

    /** Datagrams arrive and get lost, in any number and order. */
    method Turns(n: nat, ghost held: Option<nat>)
      requires Valid(n, held)
      modifies this`fates, this`rq, this`cq, pool
      ensures Valid(n, held) && Untouched(held)
    {
      hide Conserved, Balanced, Filled;
      var turns: nat :| turns >= 0;
      for t := 0 to turns
        invariant Valid(n, held) && Untouched(held)
      {
        Turn(n, held);
      }
    }

    /** One datagram that is on its way arrives or gets lost; its header may be anything. */
    method Turn(n: nat, ghost held: Option<nat>)
      requires Valid(n, held)
      modifies this`fates, this`rq, this`cq, pool
      ensures Valid(n, held) && Untouched(held)
      ensures fates == old(fates) || TravellingSet(fates) < old(TravellingSet(fates))
      ensures old(TravellingSet(fates)) != {} ==> fates != old(fates)
    {
      hide Conserved, Balanced, Filled;
      if TravellingSet(fates) != {} {
        var k: nat :| k in TravellingSet(fates);
        var lost: bool := *;
        if lost {
          Lose(n, held, k);
        } else {
          assert |seq(GRH_SIZE, (_: nat) => '\0')| == GRH_SIZE;
          var header: seq<char> :| |header| == GRH_SIZE;
          Arrive(n, held, k, header);
        }
        assert k in old(TravellingSet(fates)) && k !in TravellingSet(fates);
      }
    }

    /** post_ud_receive. */
    method Post(n: nat, b: nat)
      requires Valid(n, Some(b))
      modifies this`rq
      ensures Valid(n, None) && rq == old(rq) + [b]
    {
      ConservedPost(n, rq, cq, b);
      rq := rq + [b];
    }

    /** The buffers are posted one after the other, while datagrams are already coming in. */
    method PostAll()
      requires Valid(0, None) && recvLog == []
      modifies this`fates, this`rq, this`cq, pool
      ensures Valid(NUM_RECV_BUFS, None)
    {
      hide Conserved, Balanced, Filled;
      Turns(0, None);
      for i := 0 to NUM_RECV_BUFS
        invariant Valid(i, None)
      {
        ConservedGrow(i, rq, cq);
        Post(i + 1, i);
        Turns(i + 1, None);
      }
    }

    /** poll_completion: spins until there is a completion.  None says that it spins for ever, as no datagram is on its
        way any more. */
    method PollCompletion() returns (wc: Option<Wc>)
      requires Valid(NUM_RECV_BUFS, None)
      modifies this`fates, this`rq, this`cq, this`recvLog, pool
      ensures wc == None ==>
        Valid(NUM_RECV_BUFS, None) && cq == [] && TravellingSet(fates) == {} && recvLog == old(recvLog)
      ensures wc.Some? ==>
        && InSlot(texts, pool[..], wc.value) && Valid(NUM_RECV_BUFS, Some(wc.value.buf))
        && recvLog == old(recvLog) + [wc.value.qp]
    {
      hide Conserved, Balanced, Filled, InSlot;
      Turns(NUM_RECV_BUFS, None);
      while cq == [] && TravellingSet(fates) != {}
        invariant Valid(NUM_RECV_BUFS, None) && recvLog == old(recvLog)
        decreases TravellingSet(fates)
      {
        Turn(NUM_RECV_BUFS, None);
      }
      if cq == [] {
        return None;
      }
      var first := Take();
      wc := Some(first);
    }

    /** Hands over the oldest completion and its buffer. */
    method Take() returns (wc: Wc)
      requires Valid(NUM_RECV_BUFS, None) && cq != []
      modifies this`cq, this`recvLog
      ensures InSlot(texts, pool[..], wc) && Valid(NUM_RECV_BUFS, Some(wc.buf)) && recvLog == old(recvLog) + [wc.qp]
    {
      hide Conserved, Balanced, Filled, InSlot;
      wc := cq[0];
      ConservedTake(NUM_RECV_BUFS, rq, cq, 0);
      assert Without(cq, 0) == cq[1..];
      BalancedTake(fates, cq, recvLog);
      FilledTake(texts, pool[..], cq);
      cq, recvLog := cq[1..], recvLog + [wc.qp];
    }

    /** The receive loop.  It ends just when as many datagrams arrive as it waits for; each is read from its own
        buffer, intact, before the buffer is posted again, and none is read twice. */
    method Receive(numMsgs: nat) returns (ended: bool, log: seq<seq<char>>)
      requires Valid(NUM_RECV_BUFS, None) && recvLog == [] && forall t :: t in texts ==> '\0' !in t
      modifies this`fates, this`rq, this`cq, this`recvLog, pool
      ensures Valid(NUM_RECV_BUFS, None)
      ensures ended <==> |ReceivedSet(fates)| >= numMsgs
      ensures !ended ==> TravellingSet(fates) == {} && |log| == |ReceivedSet(fates)|
      ensures ended ==> |log| == numMsgs
      ensures multiset(recvLog) <= multiset(ReceivedSet(fates)) && |recvLog| == |log|
      ensures forall i :: 0 <= i < |log| ==>
                && recvLog[i] < |texts|
                && log[i] == if |texts[recvLog[i]]| < 256 then texts[recvLog[i]] else texts[recvLog[i]][..255]
    {
      hide Conserved, Balanced, Filled;
      ended, log := false, [];
      var i := 0;
      while i < numMsgs
        invariant Valid(NUM_RECV_BUFS, None) && i == |log| == |recvLog| <= numMsgs && Prints(texts, recvLog, log)
      {
        var wc := PollCompletion();
        if wc == None {
          BalancedTotal(fates, cq, recvLog);
          return;
        }
        var b := wc.value.buf;
        Turns(NUM_RECV_BUFS, Some(b));
        var text := Printed(Buffer(pool[..], b));
        PrintedIs(Buffer(pool[..], b), texts[wc.value.qp]);
        PrintsNext(texts, recvLog[..i], log, wc.value.qp, text);
        log := log + [text];
        Turns(NUM_RECV_BUFS, Some(b));
        Post(NUM_RECV_BUFS, b);
        i := i + 1;
      }
      BalancedTotal(fates, cq, recvLog);
      ended := true;
    }
  }

  /** The printed lines are the datagrams of recvLog. */
  ghost predicate Prints(texts: seq<seq<char>>, recvLog: seq<nat>, log: seq<seq<char>>) {
    && |recvLog| == |log|
    && forall i :: 0 <= i < |log| ==>
         && recvLog[i] < |texts|
         && log[i] == if |texts[recvLog[i]]| < 256 then texts[recvLog[i]] else texts[recvLog[i]][..255]
  }

  lemma PrintsNext(texts: seq<seq<char>>, recvLog: seq<nat>, log: seq<seq<char>>, k: nat, text: seq<char>)
    requires Prints(texts, recvLog, log) && k < |texts|
    requires text == if |texts[k]| < 256 then texts[k] else texts[k][..255]
    ensures Prints(texts, recvLog + [k], log + [text])
  {
  }
}
