/** The contract of the adapter that the bandwidth benchmark relies on: per queue pair a FIFO of send work
    requests, and one completion queue shared by all of them.

    A send queue is the sequence of its unretired work requests, oldest first; an entry says whether the
    request is signaled.  Only a polled completion retires work requests: it retires the oldest signaled one
    of its queue pair together with every unsignaled one posted before it (section 10.8.6 of the InfiniBand
    Architecture Specification, Volume 1). */
module SendQueue {

  /** Signaled work requests of one send queue, that is, completions still to be polled. */
  function Pend(s: seq<bool>): nat {
    if s == [] then 0 else Pend(s[..|s| - 1]) + if s[|s| - 1] then 1 else 0
  }

  /** Completions still to be polled over all send queues. */
  function TotalPend(sq: seq<seq<bool>>): nat {
    if sq == [] then 0 else TotalPend(sq[..|sq| - 1]) + Pend(sq[|sq| - 1])
  }

  /** What is left of a send queue after its oldest signaled work request has been polled. */
  function Retire(s: seq<bool>): (r: seq<bool>)
    requires true in s
    ensures |r| < |s| && r == s[|s| - |r|..] && s[|s| - |r| - 1]
    ensures true !in s[..|s| - |r| - 1]
  {
    if s[0] then s[1..] else Retire(s[1..])
  }

  /** s is what some number of polled completions has left of the work requests h posted to a queue pair. */
  ghost predicate Tail(s: seq<bool>, h: seq<bool>) {
    && |s| <= |h|
    && s == h[|h| - |s|..]
    && (|s| < |h| ==> h[|h| - |s| - 1])
  }

  /** Every send queue of sq is a tail of the send queue of the same queue pair in before. */
  ghost predicate Retired(before: seq<seq<bool>>, sq: seq<seq<bool>>) {
    |sq| == |before| && forall q :: 0 <= q < |sq| ==> Tail(sq[q], before[q])
  }

  /** The completions in wcs can be polled in this order. */
  ghost predicate CanPoll(sq: seq<seq<bool>>, wcs: seq<nat>) {
    forall q: nat :: q in wcs ==> q < |sq| && multiset(wcs)[q] <= Pend(sq[q])
  }

  /** The send queues after the completions in wcs, each named by its queue pair, have been polled. */
  function Poll(sq: seq<seq<bool>>, wcs: seq<nat>): (r: seq<seq<bool>>)
    requires CanPoll(sq, wcs)
    ensures |r| == |sq|
    decreases |wcs|
  {
    if wcs == [] then sq
    else
      PollFirst(sq, wcs);
      Poll(sq[wcs[0] := Retire(sq[wcs[0]])], wcs[1..])
  }

  // ---------- counting ----------

  lemma {:induction false} PendConcat(a: seq<bool>, b: seq<bool>)
    ensures Pend(a + b) == Pend(a) + Pend(b)
  {
    if b == [] {
      assert a + b == a;
    } else {
      assert (a + b)[..|a + b| - 1] == a + b[..|b| - 1];
      PendConcat(a, b[..|b| - 1]);
    }
  }

  lemma {:induction false} PendNone(s: seq<bool>)
    ensures Pend(s) == 0 <==> true !in s
  {
    if s != [] {
      PendNone(s[..|s| - 1]);
      assert s == s[..|s| - 1] + [s[|s| - 1]];
    }
  }

  /** Polling one completion takes exactly one signaled work request away. */
  lemma RetirePend(s: seq<bool>)
    requires Pend(s) > 0
    ensures true in s && Pend(Retire(s)) == Pend(s) - 1
  {
    PendNone(s);
    var r := Retire(s);
    var k := |s| - |r|;
    assert s == s[..k - 1] + [true] + r;
    PendNone(s[..k - 1]);
    PendConcat(s[..k - 1], [true]);
    PendConcat(s[..k - 1] + [true], r);
  }

  lemma {:induction false} TotalUpdate(sq: seq<seq<bool>>, q: nat, s: seq<bool>)
    requires q < |sq|
    ensures TotalPend(sq[q := s]) == TotalPend(sq) - Pend(sq[q]) + Pend(s)
  {
    var n := |sq| - 1;
    if q == n {
      assert sq[q := s][..n] == sq[..n];
    } else {
      assert sq[q := s][..n] == sq[..n][q := s];
      TotalUpdate(sq[..n], q, s);
    }
  }

  lemma {:induction false} PendAtMostTotal(sq: seq<seq<bool>>, q: nat)
    requires q < |sq|
    ensures Pend(sq[q]) <= TotalPend(sq)
  {
    if q < |sq| - 1 {
      PendAtMostTotal(sq[..|sq| - 1], q);
    }
  }

  lemma {:induction false} SomePending(sq: seq<seq<bool>>) returns (q: nat)
    requires TotalPend(sq) > 0
    ensures q < |sq| && Pend(sq[q]) > 0
  {
    if Pend(sq[|sq| - 1]) > 0 {
      q := |sq| - 1;
    } else {
      q := SomePending(sq[..|sq| - 1]);
    }
  }

  lemma {:induction false} NothingPosted(sq: seq<seq<bool>>)
    requires forall q :: 0 <= q < |sq| ==> sq[q] == []
    ensures TotalPend(sq) == 0
  {
    if sq != [] {
      NothingPosted(sq[..|sq| - 1]);
    }
  }

  // ---------- polling ----------

  lemma PollFirst(sq: seq<seq<bool>>, wcs: seq<nat>)
    requires CanPoll(sq, wcs) && wcs != []
    ensures wcs[0] < |sq| && true in sq[wcs[0]]
    ensures Pend(Retire(sq[wcs[0]])) == Pend(sq[wcs[0]]) - 1
    ensures CanPoll(sq[wcs[0] := Retire(sq[wcs[0]])], wcs[1..])
  {
    var w := wcs[0];
    assert w in wcs;
    RetirePend(sq[w]);
    assert wcs == [w] + wcs[1..];
    assert multiset(wcs) == multiset{w} + multiset(wcs[1..]);
    forall q: nat | q in wcs[1..]
      ensures q < |sq| && multiset(wcs[1..])[q] <= Pend(sq[w := Retire(sq[w])][q])
    {
      assert q in wcs;
    }
  }

  lemma TailRetire(s: seq<bool>, h: seq<bool>)
    requires Tail(s, h) && true in s
    ensures Tail(Retire(s), h)
  {
    var r := Retire(s);
    var d := |h| - |s|;
    assert s[|s| - |r| - 1] == h[d + (|s| - |r| - 1)];
    assert h[|h| - |r|..] == s[|s| - |r|..];
  }

  lemma RetiredTrans(a: seq<seq<bool>>, b: seq<seq<bool>>, c: seq<seq<bool>>)
    requires Retired(a, b) && Retired(b, c)
    ensures Retired(a, c)
  {
  }

  /** Polling one completion. */
  lemma PollOne(sq: seq<seq<bool>>, w: nat)
    requires w < |sq| && Pend(sq[w]) > 0
    ensures true in sq[w]
    ensures Retired(sq, sq[w := Retire(sq[w])])
    ensures TotalPend(sq[w := Retire(sq[w])]) == TotalPend(sq) - 1
  {
    RetirePend(sq[w]);
    TotalUpdate(sq, w, Retire(sq[w]));
    TailRetire(sq[w], sq[w]);
  }

  /** Polling a batch retires a prefix of every send queue and takes |wcs| pending completions away. */
  lemma {:induction false} PollEffect(sq: seq<seq<bool>>, wcs: seq<nat>)
    requires CanPoll(sq, wcs)
    ensures Retired(sq, Poll(sq, wcs))
    ensures TotalPend(Poll(sq, wcs)) == TotalPend(sq) - |wcs|
    decreases |wcs|
  {
    if wcs != [] {
      PollFirst(sq, wcs);
      var next := sq[wcs[0] := Retire(sq[wcs[0]])];
      PollOne(sq, wcs[0]);
      PollEffect(next, wcs[1..]);
      RetiredTrans(sq, next, Poll(next, wcs[1..]));
    }
  }

  /** Polling takes exactly the polled completions of each queue pair away. */
  lemma {:induction false} PollCounts(sq: seq<seq<bool>>, wcs: seq<nat>, q: nat)
    requires CanPoll(sq, wcs) && q < |sq|
    ensures Pend(Poll(sq, wcs)[q]) == Pend(sq[q]) - multiset(wcs)[q]
    decreases |wcs|
  {
    if wcs != [] {
      PollFirst(sq, wcs);
      PollCounts(sq[wcs[0] := Retire(sq[wcs[0]])], wcs[1..], q);
      assert wcs == [wcs[0]] + wcs[1..];
    }
  }

  lemma CanPollPrefix(sq: seq<seq<bool>>, a: seq<nat>, b: seq<nat>)
    requires CanPoll(sq, a + b)
    ensures CanPoll(sq, a)
  {
    forall q: nat | q in a
      ensures q < |sq| && multiset(a)[q] <= Pend(sq[q])
    {
      assert q in a + b;
    }
  }

  /** Which completions can be polled does not depend on the batches. */
  lemma CanPollBatches(sq: seq<seq<bool>>, a: seq<nat>, b: seq<nat>)
    requires CanPoll(sq, a)
    ensures CanPoll(sq, a + b) <==> CanPoll(Poll(sq, a), b)
  {
    forall q: nat | q in b && q < |sq|
      ensures multiset(b)[q] <= Pend(Poll(sq, a)[q]) <==> multiset(a + b)[q] <= Pend(sq[q])
    {
      PollCounts(sq, a, q);
    }
    forall q: nat | q in a + b && q !in b
      ensures q < |sq| && multiset(a + b)[q] <= Pend(sq[q])
    {
      assert multiset(a + b)[q] == multiset(a)[q];
    }
    assert forall q :: q in b ==> q in a + b;
  }

  lemma RetirePositive(s: seq<bool>)
    requires true in s
    ensures Pend(s) > 0
  {
    PendNone(s);
  }

  /** Polling one completion and then the rest. */
  lemma PollCons(sq: seq<seq<bool>>, w: nat, rest: seq<nat>)
    requires w < |sq| && Pend(sq[w]) > 0
    ensures true in sq[w]
    ensures CanPoll(sq, [w] + rest) <==> CanPoll(sq[w := Retire(sq[w])], rest)
    ensures CanPoll(sq, [w] + rest) ==> Poll(sq, [w] + rest) == Poll(sq[w := Retire(sq[w])], rest)
  {
    RetirePend(sq[w]);
    var next, all := sq[w := Retire(sq[w])], [w] + rest;
    assert all[0] == w && all[1..] == rest;
    if CanPoll(sq, all) {
      PollFirst(sq, all);
    }
    if CanPoll(next, rest) {
      forall q: nat | q in all
        ensures q < |sq| && multiset(all)[q] <= Pend(sq[q])
      {
        assert q != w ==> q in rest;
        assert multiset(all)[q] == multiset(rest)[q] + if q == w then 1 else 0;
        assert w !in rest ==> multiset(rest)[w] == 0;
      }
    }
  }

  lemma NoneToPoll(sq: seq<seq<bool>>)
    ensures CanPoll(sq, []) && Poll(sq, []) == sq
  {
  }

  lemma {:induction false} PollSplit(sq: seq<seq<bool>>, a: seq<nat>, b: seq<nat>)
    requires CanPoll(sq, a + b)
    ensures CanPoll(sq, a) && CanPoll(Poll(sq, a), b) && Poll(sq, a + b) == Poll(Poll(sq, a), b)
    decreases |a|
  {
    hide *;
    CanPollPrefix(sq, a, b);
    CanPollBatches(sq, a, b);
    if a == [] {
      NoneToPoll(sq);
      assert a + b == b;
    } else {
      var w, rest := a[0], a[1..];
      PollFirst(sq, a);
      RetirePositive(sq[w]);
      assert a == [w] + rest && a + b == [w] + (rest + b);
      PollCons(sq, w, rest);
      PollCons(sq, w, rest + b);
      PollSplit(sq[w := Retire(sq[w])], rest, b);
    }
  }

  /** Polling in two batches is polling in one go: the same completions can be polled, with the same effect. */
  lemma PollBatches(sq: seq<seq<bool>>, a: seq<nat>, b: seq<nat>)
    ensures CanPoll(sq, a + b) <==> CanPoll(sq, a) && CanPoll(Poll(sq, a), b)
    ensures CanPoll(sq, a + b) ==> Poll(sq, a + b) == Poll(Poll(sq, a), b)
  {
    if CanPoll(sq, a + b) {
      PollSplit(sq, a, b);
    } else if CanPoll(sq, a) {
      CanPollBatches(sq, a, b);
    }
  }

  lemma OneAndRest(sq: seq<seq<bool>>, w: nat, rest: seq<nat>)
    requires w < |sq| && Pend(sq[w]) > 0 && true in sq[w] && CanPoll(sq[w := Retire(sq[w])], rest)
    ensures CanPoll(sq, [w] + rest)
  {
    PollCons(sq, w, rest);
  }

  /** Any number of pending completions can be the ones polled next. */
  lemma {:induction false} SomeBatch(sq: seq<seq<bool>>, n: nat) returns (wcs: seq<nat>)
    requires n <= TotalPend(sq)
    ensures |wcs| == n && CanPoll(sq, wcs)
    decreases n
  {
    hide *;
    if n == 0 {
      NoneToPoll(sq);
      return [];
    }
    var w := SomePending(sq);
    PollOne(sq, w);
    var rest := SomeBatch(sq[w := Retire(sq[w])], n - 1);
    OneAndRest(sq, w, rest);
    wcs := [w] + rest;
  }

  // ---------- the adapter ----------

  class Nic {
    const depth: nat               // send work requests a queue pair can hold
    var sq: seq<seq<bool>>         // unretired send work requests, per queue pair
    var cq: seq<nat>               // completions not yet polled, named by their queue pair
    var idle: nat                  // fair progress: how many more polls may come back empty
    ghost var peak: nat            // the fullest any send queue has been since the last Mark
    ghost var load: nat            // the most completions pending at once since the last Mark

    ghost predicate Valid()
      reads this
    {
      && (forall q :: 0 <= q < |sq| ==> |sq[q]| <= depth)
      && CanPoll(sq, cq)
    }

    constructor (queuePairs: nat, depth: nat)
      ensures Valid() && this.depth == depth
      ensures |sq| == queuePairs && forall q :: 0 <= q < queuePairs ==> sq[q] == []
    {
      this.depth := depth;
      sq := seq(queuePairs, _ => []);
      cq := [];
      idle, peak, load := 0, 0, 0;
    }

    ghost method Mark()
      requires Valid()
      modifies this`peak, this`load
      ensures Valid() && peak == 0 && load == 0
    {
      peak, load := 0, 0;
    }

    /** ibv_post_send: fails exactly when the send queue is full. */
    method PostSend(q: nat, signaled: bool) returns (ok: bool)
      requires Valid() && q < |sq|
      modifies this`sq, this`peak, this`load
      ensures Valid()
      ensures ok <==> |old(sq)[q]| < depth
      ensures sq == if ok then old(sq)[q := old(sq)[q] + [signaled]] else old(sq)
      ensures peak == if ok && |sq[q]| > old(peak) then |sq[q]| else old(peak)
      ensures load == if ok && TotalPend(sq) > old(load) then TotalPend(sq) else old(load)
    {
      ok := |sq[q]| < depth;
      if ok {
        PendConcat(sq[q], [signaled]);
        sq := sq[q := sq[q] + [signaled]];
        peak := if |sq[q]| > peak then |sq[q]| else peak;
        load := if TotalPend(sq) > load then TotalPend(sq) else load;
      }
    }

    /** The adapter finishes the oldest signaled work request of queue pair q that has no completion yet. */
    method Complete(q: nat)
      requires Valid()
      modifies this`cq
      ensures Valid()
      ensures cq == old(cq) || cq == old(cq) + [q]
      ensures q < |sq| && multiset(old(cq))[q] < Pend(sq[q]) ==> cq == old(cq) + [q]
    {
      if q < |sq| && multiset(cq)[q] < Pend(sq[q]) {
        cq := cq + [q];
      }
    }

    /** The adapter finishes any number of signaled work requests of any queue pairs. */
    method Progress()
      requires Valid()
      modifies this`cq
      ensures Valid()
    {
      var arrivals: nat :| arrivals >= 0;
      for k := 0 to arrivals
        invariant Valid()
      {
        var q: nat :| q >= 0;
        Complete(q);
      }
    }

    /** At least one completion arrives if any is pending. */
    method ForceProgress()
      requires Valid() && TotalPend(sq) > 0
      modifies this`cq
      ensures Valid() && cq != []
    {
      if cq == [] {
        ghost var p := SomePending(sq);
        var q: nat :| q < |sq| && Pend(sq[q]) > 0;
        Complete(q);
      }
    }

    /** Hands the oldest n completions over and retires what they complete. */
    method Take(n: nat) returns (wcs: seq<nat>)
      requires Valid() && n <= |cq|
      modifies this`sq, this`cq
      ensures Valid()
      ensures wcs == old(cq)[..n] && cq == old(cq)[n..]
      ensures CanPoll(old(sq), wcs) && sq == Poll(old(sq), wcs)
    {
      wcs := cq[..n];
      assert cq == wcs + cq[n..];
      PollBatches(sq, wcs, cq[n..]);
      PollEffect(sq, wcs);
      sq, cq := Poll(sq, wcs), cq[n..];
    }

    /** ibv_poll_cq: takes any number of the available completions up to max, possibly none; but while
        completions are pending it does not stay empty for ever. */
    method PollCq(max: nat) returns (wcs: seq<nat>)
      requires Valid() && max > 0
      modifies this`sq, this`cq, this`idle
      ensures Valid()
      ensures |wcs| <= max && CanPoll(old(sq), wcs) && sq == Poll(old(sq), wcs)
      ensures wcs == [] && TotalPend(sq) > 0 ==> idle < old(idle)
    {
      Progress();
      var take: nat :| take <= max && take <= |cq|;
      if take > 0 {
        var patience: nat :| patience >= 0;
        idle := patience;
      } else if TotalPend(sq) > 0 {
        if idle > 0 {
          idle := idle - 1;
        } else {
          ForceProgress();
          take := 1;
        }
      }
      wcs := Take(take);
    }
  }
}
