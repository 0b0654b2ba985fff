/** The RDMA Write benchmark: warm-up, measurement loop and drain over one adapter. */
module Benchmark {

  import opened SignalCoverage
  import opened SendQueue
  import opened Measurement

  /** How a run ends.  The program exits when a post fails; it never returns from a poll that waits for
      more completions than will ever arrive. */
  datatype Outcome = WarmupPostFails | PostFails | ThrottleSpins | DrainSpins | Finished(totalOps: int)

  /** The operation count that the statistics report. */
  function TotalOps(cfg: Config): int {
    cfg.iterations * cfg.qpCount
  }

  /** Entries of the completion queue. */
  const CQ_DEPTH: nat := 1024

  // ---------- the warm-up ----------

  function WarmupTurns(cfg: Config): nat {
    if cfg.warmup > 0 then cfg.warmup else 0
  }

  /** Signal flags of the first n warm-up posts of a queue pair. */
  ghost function WarmupHistory(n: nat): seq<bool> {
    seq(n, (i: nat) => SignaledAt(i))
  }

  /** A run of n unsignaled posts that starts right after a signaled one, or at the beginning. */
  lemma UnsignaledRun(d: nat, n: nat)
    requires d > 0 ==> SignaledAt(d - 1)
    requires forall k: nat :: d <= k < d + n ==> !SignaledAt(k)
    ensures n == (d + n) % 32
  {
    assert d % 32 == 0;
    assert SignaledAt(d + 31);
  }

  /** The warm-up signals every 32nd post; once all its completions are polled, w mod 32 posts are left over. */
  lemma WarmupLeavesRemainder(w: nat, s: seq<bool>)
    requires Tail(s, WarmupHistory(w)) && Pend(s) == 0
    ensures s == Unsignaled(w % 32)
  {
    PendNone(s);
    var h, d := WarmupHistory(w), w - |s|;
    assert d > 0 ==> h[d - 1];
    forall k: nat | d <= k < w
      ensures !SignaledAt(k)
    {
      assert s[k - d] in s;
      assert s[k - d] == h[k];
    }
    UnsignaledRun(d, |s|);
    forall k | 0 <= k < |s|
      ensures !s[k]
    {
      assert s[k] in s;
    }
  }

  /** Iteration i of the warm-up has posted to the queue pairs below q and nothing has been polled. */
  ghost predicate Warm(sq: seq<seq<bool>>, qps: nat, i: nat, q: nat) {
    && |sq| == qps
    && forall k: nat :: k < qps ==> sq[k] == WarmupHistory(if k < q then i + 1 else i)
  }

  lemma WarmPost(sq: seq<seq<bool>>, qps: nat, i: nat, q: nat)
    requires Warm(sq, qps, i, q) && q < qps
    ensures |sq[q]| == i
    ensures Warm(sq[q := sq[q] + [SignaledAt(i)]], qps, i, q + 1)
    ensures TotalPend(sq[q := sq[q] + [SignaledAt(i)]]) == TotalPend(sq) + if SignaledAt(i) then 1 else 0
  {
    PendConcat(sq[q], [SignaledAt(i)]);
    TotalUpdate(sq, q, sq[q] + [SignaledAt(i)]);
    assert WarmupHistory(i + 1) == WarmupHistory(i) + [SignaledAt(i)];
  }

  lemma WarmStart(sq: seq<seq<bool>>, qps: nat)
    requires |sq| == qps && forall k :: 0 <= k < qps ==> sq[k] == []
    ensures Warm(sq, qps, 0, 0)
  {
  }

  lemma WarmRound(sq: seq<seq<bool>>, qps: nat, i: nat)
    requires Warm(sq, qps, i, qps)
    ensures Warm(sq, qps, i + 1, 0)
  {
  }

  lemma {:induction false} PendWarmup(w: nat)
    ensures Pend(WarmupHistory(w)) == w / 32
  {
    if w > 0 {
      assert WarmupHistory(w)[..w - 1] == WarmupHistory(w - 1);
      PendWarmup(w - 1);
    } else {
      assert WarmupHistory(0) == [];
    }
  }

  lemma {:induction false} SamePend(sq: seq<seq<bool>>, n: nat)
    requires forall k :: 0 <= k < |sq| ==> Pend(sq[k]) == n
    ensures TotalPend(sq) == |sq| * n
  {
    if sq != [] {
      SamePend(sq[..|sq| - 1], n);
      MulDist(n, |sq| - 1, 1);
    }
  }

  lemma WarmupPending(sq: seq<seq<bool>>, cfg: Config)
    requires Warm(sq, cfg.qpCount, WarmupTurns(cfg), 0)
    ensures TotalPend(sq) == cfg.qpCount * (WarmupTurns(cfg) / 32)
  {
    PendWarmup(WarmupTurns(cfg));
    SamePend(sq, WarmupTurns(cfg) / 32);
  }

  /** Nothing is polled before the drain, so all completions of the warm-up can be in the completion queue at once:
      more than it holds iff qp_count * (warmup / 32) exceeds its size. */
  lemma WarmupOverrunIff(sq: seq<seq<bool>>, cfg: Config)
    requires Warm(sq, cfg.qpCount, WarmupTurns(cfg), 0)
    ensures (exists cq :: CanPoll(sq, cq) && |cq| > 1024)
            <==> cfg.warmup > 0 && cfg.qpCount * (cfg.warmup / 32) > 1024
  {
    WarmupPending(sq, cfg);
    hide CanPoll, Warm, TotalPend;
    if TotalPend(sq) > CQ_DEPTH {
      var cq := SomeBatch(sq, TotalPend(sq));
    }
    forall cq | CanPoll(sq, cq)
      ensures |cq| <= TotalPend(sq)
    {
      PollEffect(sq, cq);
    }
  }

  // ---------- the program ----------

  /** Polls until count completions have been taken, wcs in this order.  If fewer than count will ever arrive the loop
      of the program does not end; the model then stops it and reports that it spins. */
  method PollCompletions(nic: Nic, count: int) returns (total: nat, spins: bool, ghost wcs: seq<nat>)
    requires nic.Valid()
    modifies nic`sq, nic`cq, nic`idle
    ensures nic.Valid() && CanPoll(old(nic.sq), wcs) && nic.sq == Poll(old(nic.sq), wcs)
    ensures total == |wcs| == TotalPend(old(nic.sq)) - TotalPend(nic.sq)
    ensures spins <==> TotalPend(old(nic.sq)) < count
    ensures spins ==> TotalPend(nic.sq) == 0
    ensures !spins && count > 0 ==> count <= total <= count + 31
    ensures count <= 0 ==> total == 0
  {
    total, spins, wcs := 0, false, [];
    ghost var start := nic.sq;
    NoneToPoll(start);
    hide CanPoll, Poll, TotalPend;
    while total < count
      invariant nic.Valid() && CanPoll(start, wcs) && nic.sq == Poll(start, wcs)
      invariant total == |wcs| == TotalPend(start) - TotalPend(nic.sq)
      invariant count > 0 ==> total <= count + 31
      invariant count <= 0 ==> total == 0
      decreases TotalPend(nic.sq), nic.idle
    {
      if TotalPend(nic.sq) == 0 {
        return total, true, wcs;
      }
      ghost var before := nic.sq;
      var batch := nic.PollCq(32);
      PollEffect(before, batch);
      PollBatches(start, wcs, batch);
      total, wcs := total + |batch|, wcs + batch;
    }
  }

  /** The warm-up posts without polling: every queue pair must hold all its warm-up posts at once. */
  method Warmup(nic: Nic, cfg: Config) returns (ok: bool, outstanding: nat)
    requires nic.Valid() && |nic.sq| == cfg.qpCount > 0 && nic.depth == cfg.sqDepth
    requires forall q :: 0 <= q < cfg.qpCount ==> nic.sq[q] == []
    modifies nic`sq, nic`peak, nic`load
    ensures nic.Valid()
    ensures ok <==> cfg.warmup <= cfg.sqDepth
    ensures ok ==> outstanding == TotalPend(nic.sq)
    ensures ok ==> Warm(nic.sq, cfg.qpCount, WarmupTurns(cfg), 0)
    ensures ok ==> outstanding == cfg.qpCount * (WarmupTurns(cfg) / 32)
  {
    outstanding := 0;
    var i := 0;
    NothingPosted(nic.sq);
    WarmStart(nic.sq, cfg.qpCount);
    hide nic.Valid, Warm, TotalPend, CanPoll;
    while i < cfg.warmup
      invariant nic.Valid() && |nic.sq| == cfg.qpCount && Warm(nic.sq, cfg.qpCount, i, 0)
      invariant 0 <= i && (i > 0 ==> i <= cfg.warmup && i <= cfg.sqDepth)
      invariant outstanding == TotalPend(nic.sq)
    {
      var q := 0;
      while q < cfg.qpCount
        invariant nic.Valid() && |nic.sq| == cfg.qpCount && Warm(nic.sq, cfg.qpCount, i, q)
        invariant q <= cfg.qpCount && (q > 0 ==> i < cfg.sqDepth)
        invariant outstanding == TotalPend(nic.sq)
      {
        var signaled := i % SIGNAL_INTERVAL == SIGNAL_INTERVAL - 1;
        WarmPost(nic.sq, cfg.qpCount, i, q);
        var posted := nic.PostSend(q, signaled);
        if !posted {
          return false, outstanding;
        }
        if signaled {
          outstanding := outstanding + 1;
        }
        q := q + 1;
      }
      WarmRound(nic.sq, cfg.qpCount, i);
      i := i + 1;
    }
    ok := true;
    WarmupPending(nic.sq, cfg);
  }

  /** The state of the measurement loop that the variables of the program and the adapter make up. */
  ghost function View(nic: Nic, i: nat, q: nat, cnt: nat, outstanding: int, takes: seq<nat>): Loop
    reads nic
  {
    Loop(nic.sq, i, q, cnt, outstanding, takes)
  }

  /** The marks of the adapter since the measurement began: the most completions ever pending and the fullest any send
      queue has been. */
  ghost predicate Bounded(cfg: Config, load: nat, peak: nat) {
    && load <= Threshold(cfg.sqDepth)
    && (Threshold(cfg.sqDepth) > 0 && cfg.qpCount % 2 == 1 ==>
          peak <= Leftover(cfg) + 32 * Threshold(cfg.sqDepth))
  }

  /** The throttle: at the threshold, a poll for one completion. */
  method Throttle(nic: Nic, sqDepth: nat, exact: bool, outstanding: int, takes: seq<nat>)
    returns (spins: bool, outstanding': int, takes': seq<nat>, ghost wcs: seq<nat>)
    requires nic.Valid()
    modifies nic`sq, nic`cq, nic`idle
    ensures nic.Valid()
    ensures spins ==> outstanding >= Threshold(sqDepth) && TotalPend(old(nic.sq)) == 0
    ensures !spins && outstanding >= Threshold(sqDepth) ==>
              && 1 <= |wcs| <= 32 && CanPoll(old(nic.sq), wcs) && nic.sq == Poll(old(nic.sq), wcs)
              && outstanding' == outstanding - (if exact then |wcs| else 1) && takes' == takes + [|wcs|]
    ensures outstanding < Threshold(sqDepth) ==> nic.sq == old(nic.sq) && outstanding' == outstanding && takes' == takes
  {
    hide CanPoll, TotalPend, Poll;
    spins, outstanding', takes', wcs := false, outstanding, takes, [];
    if outstanding >= sqDepth / (2 * SIGNAL_INTERVAL) {
      var n;
      n, spins, wcs := PollCompletions(nic, 1);
      if !spins {
        takes', outstanding' := takes + [n], outstanding - (if exact then n else 1);
      }
    }
  }

  function Max(a: nat, b: nat): nat {
    if a < b then b else a
  }

  /** One more post keeps the adapter's marks within bounds. */
  lemma PostBounded(cfg: Config, exact: bool, s: Loop, load: nat, peak: nat, load': nat, peak': nat)
    requires Inv(cfg, exact, s) && s.q < cfg.qpCount && |s.sq[s.q]| < cfg.sqDepth && Bounded(cfg, load, peak)
    requires load' <= Max(load, TotalPend(Queues(s))) && peak' <= Max(peak, |Queues(s)[s.q]|)
    ensures Bounded(cfg, load', peak')
  {
    BeforePost(cfg, exact, s);
    PostKeeps(s.sq, Leftover(cfg), cfg.qpCount, s.i, s.q);
    hide TotalPend, Posted, Counters, Fits;
  }

  /** A post that fails, or one whose throttle spins. */
  lemma StopReasons(cfg: Config, exact: bool, s: Loop)
    requires Inv(cfg, exact, s) && s.i < Iterations(cfg) && s.q < cfg.qpCount
    ensures |s.sq[s.q]| >= cfg.sqDepth ==> MeasurementPostFails(cfg)
    ensures |s.sq[s.q]| < cfg.sqDepth && Raised(s) >= Threshold(cfg.sqDepth) && TotalPend(Queues(s)) == 0 ==>
              Threshold(cfg.sqDepth) == 0 && Leftover(cfg) < cfg.sqDepth
  {
    BeforePost(cfg, exact, s);
    PostKeeps(s.sq, Leftover(cfg), cfg.qpCount, s.i, s.q);
    hide TotalPend, Posted, Counters, Fits;
  }

  /** The body of the inner loop, for a post that finds room or not. */
  method PostOne(nic: Nic, cfg: Config, exact: bool, ghost i: nat, q: nat, cnt: nat, outstanding: int, takes: seq<nat>)
    returns (posted: bool, spins: bool, outstanding': int, takes': seq<nat>, ghost wcs: seq<nat>)
    requires nic.Valid() && nic.depth == cfg.sqDepth && i < Iterations(cfg) && q < cfg.qpCount == |nic.sq|
    modifies nic
    ensures nic.Valid()
    ensures posted <==> |old(nic.sq)[q]| < cfg.sqDepth
    ensures var s := old(View(nic, i, q, cnt, outstanding, takes));
      && (posted && !spins ==> Post(cfg, exact, s, View(nic, i, q + 1, cnt + 1, outstanding', takes'), wcs))
      && (posted && spins ==> Raised(s) >= Threshold(cfg.sqDepth) && TotalPend(Queues(s)) == 0)
      && (posted ==> nic.load <= Max(old(nic.load), TotalPend(Queues(s))))
      && (posted ==> nic.peak <= Max(old(nic.peak), |Queues(s)[q]|))
      && (!posted ==> nic.load == old(nic.load) && nic.peak == old(nic.peak))
  {
    hide nic.Valid, CanPoll, TotalPend, Poll, Threshold;
    spins, outstanding', takes', wcs := false, outstanding, takes, [];
    var signaled := cnt % SIGNAL_INTERVAL == SIGNAL_INTERVAL - 1;
    posted := nic.PostSend(q, signaled);
    if posted {
      outstanding' := outstanding + if signaled then 1 else 0;
      spins, outstanding', takes', wcs := Throttle(nic, cfg.sqDepth, exact, outstanding', takes);
    }
  }

  lemma PostNext(cfg: Config, exact: bool, s: Loop, s': Loop, wcs: seq<nat>)
    requires Inv(cfg, exact, s) && Post(cfg, exact, s, s', wcs)
    ensures Next(cfg, exact, s, s') && Inv(cfg, exact, s')
  {
    hide Post, Inv;
    PostInv(cfg, exact, s, s', wcs);
  }

  /** One turn of the measurement loop. */
  method PostAndThrottle(nic: Nic, cfg: Config, exact: bool, ghost i: nat, q: nat, cnt: nat, outstanding: int,
                         takes: seq<nat>)
    returns (stop: bool, out: Outcome, outstanding': int, takes': seq<nat>)
    requires nic.Valid() && nic.depth == cfg.sqDepth && Bounded(cfg, nic.load, nic.peak)
    requires i < Iterations(cfg) && q < cfg.qpCount
    requires Inv(cfg, exact, View(nic, i, q, cnt, outstanding, takes))
    modifies nic
    ensures nic.Valid() && Bounded(cfg, nic.load, nic.peak)
    ensures !stop ==>
              Next(cfg, exact, old(View(nic, i, q, cnt, outstanding, takes)),
                   View(nic, i, q + 1, cnt + 1, outstanding', takes'))
    ensures !stop ==> Inv(cfg, exact, View(nic, i, q + 1, cnt + 1, outstanding', takes'))
    ensures stop ==> out == PostFails || out == ThrottleSpins
    ensures stop && out == PostFails ==> MeasurementPostFails(cfg)
    ensures stop && out == ThrottleSpins ==> Threshold(cfg.sqDepth) == 0 && Leftover(cfg) < cfg.sqDepth
  {
    ghost var s, load, peak := View(nic, i, q, cnt, outstanding, takes), nic.load, nic.peak;
    assert s.sq == nic.sq && s.q == q && s.i == i && |s.sq| == cfg.qpCount;
    hide *;
    var posted;
    ghost var wcs;
    posted, stop, outstanding', takes', wcs := PostOne(nic, cfg, exact, i, q, cnt, outstanding, takes);
    StopReasons(cfg, exact, s);
    out := if posted then ThrottleSpins else PostFails;
    stop := stop || !posted;
    if posted {
      PostBounded(cfg, exact, s, load, peak, nic.load, nic.peak);
    }
    if !stop {
      PostNext(cfg, exact, s, View(nic, i, q + 1, cnt + 1, outstanding', takes'), wcs);
    }
  }

  /** Nothing has been posted in the measurement loop yet. */
  ghost predicate Fresh(nic: Nic, cfg: Config)
    reads nic
  {
    && nic.Valid() && nic.depth == cfg.sqDepth && cfg.qpCount > 0 && cfg.warmup <= cfg.sqDepth
    && nic.peak == nic.load == 0 && nic.sq == Start(cfg).sq
  }

  /** The program and the adapter are where a run of the measurement loop has led. */
  ghost predicate Reached(nic: Nic, cfg: Config, exact: bool, tr: seq<Loop>, s: Loop)
    reads nic
  {
    && nic.Valid() && nic.depth == cfg.sqDepth && Bounded(cfg, nic.load, nic.peak)
    && tr != [] && Run(cfg, exact, tr) && tr[|tr| - 1] == s && s.sq == nic.sq && Inv(cfg, exact, s)
  }

  /** The inner loop. */
  method PostRound(nic: Nic, cfg: Config, exact: bool, ghost i: nat, cnt: nat, outstanding: int, takes: seq<nat>,
                   ghost tr: seq<Loop>)
    returns (stop: bool, out: Outcome, cnt': nat, outstanding': int, takes': seq<nat>, ghost tr': seq<Loop>)
    requires i < Iterations(cfg) && Reached(nic, cfg, exact, tr, View(nic, i, 0, cnt, outstanding, takes))
    modifies nic
    ensures nic.Valid() && Bounded(cfg, nic.load, nic.peak)
    ensures stop ==> out == PostFails || out == ThrottleSpins
    ensures stop && out == PostFails ==> MeasurementPostFails(cfg)
    ensures stop && out == ThrottleSpins ==> Threshold(cfg.sqDepth) == 0 && Leftover(cfg) < cfg.sqDepth
    ensures !stop ==> Reached(nic, cfg, exact, tr', View(nic, i, cfg.qpCount, cnt', outstanding', takes'))
  {
    hide nic.Valid, Inv, Next, Run, Bounded, MeasurementPostFails, Threshold, Leftover, Iterations;
    stop, out, cnt', outstanding', takes', tr' := false, PostFails, cnt, outstanding, takes, tr;
    var q := 0;
    while q < cfg.qpCount
      invariant q <= cfg.qpCount && Reached(nic, cfg, exact, tr', View(nic, i, q, cnt', outstanding', takes'))
    {
      stop, out, outstanding', takes' := PostAndThrottle(nic, cfg, exact, i, q, cnt', outstanding', takes');
      if stop {
        return;
      }
      cnt', q := cnt' + 1, q + 1;
      Extend(cfg, exact, tr', View(nic, i, q, cnt', outstanding', takes'));
      tr' := tr' + [View(nic, i, q, cnt', outstanding', takes')];
    }
  }

  lemma StartReached(nic: Nic, cfg: Config, exact: bool)
    requires Fresh(nic, cfg)
    ensures Reached(nic, cfg, exact, [View(nic, 0, 0, 0, 0, [])], View(nic, 0, 0, 0, 0, []))
  {
    StartInv(cfg, exact);
    RunStart(cfg, exact);
    assert Start(cfg) == View(nic, 0, 0, 0, 0, []);
    hide nic.Valid, Inv, Next, Run, Start;
  }

  /** The nested posting loops.  The run that they go through is returned. */
  method PostAll(nic: Nic, cfg: Config, exact: bool)
    returns (stop: bool, out: Outcome, outstanding: int, takes: seq<nat>, ghost tr: seq<Loop>)
    requires Fresh(nic, cfg)
    modifies nic
    ensures nic.Valid() && Bounded(cfg, nic.load, nic.peak)
    ensures stop ==> cfg.iterations > 0 && (out == PostFails || out == ThrottleSpins)
    ensures stop && out == PostFails ==> MeasurementPostFails(cfg)
    ensures stop && out == ThrottleSpins ==> Threshold(cfg.sqDepth) == 0 && Leftover(cfg) < cfg.sqDepth
    ensures !stop ==> Reached(nic, cfg, exact, tr, View(nic, Iterations(cfg), 0, Posts(cfg), outstanding, takes))
  {
    StartReached(nic, cfg, exact);
    hide nic.Valid, Inv, Next, Run, Fresh, Start, Bounded, MeasurementPostFails, Threshold, Leftover, Posts;
    hide TotalPend, Poll, CanPoll;
    stop, out := false, PostFails;
    var signalCnt, i := 0, 0;
    outstanding, takes, tr := 0, [], [View(nic, 0, 0, 0, 0, [])];
    while i < cfg.iterations
      invariant 0 <= i <= Iterations(cfg)
      invariant Reached(nic, cfg, exact, tr, View(nic, i, 0, signalCnt, outstanding, takes))
    {
      stop, out, signalCnt, outstanding, takes, tr := PostRound(nic, cfg, exact, i, signalCnt, outstanding, takes, tr);
      if stop {
        return;
      }
      i := i + 1;
      ghost var next := View(nic, i, 0, signalCnt, outstanding, takes);
      NextRound(cfg, exact, tr[|tr| - 1], next);
      Extend(cfg, exact, tr, next);
      tr := tr + [next];
    }
    CompleteCount(cfg, exact, tr[|tr| - 1]);
  }

  lemma NextRound(cfg: Config, exact: bool, s: Loop, s': Loop)
    requires Inv(cfg, exact, s) && Round(cfg, s, s')
    ensures Next(cfg, exact, s, s') && Inv(cfg, exact, s')
  {
    RoundInv(cfg, exact, s, s');
  }

  lemma CompleteCount(cfg: Config, exact: bool, s: Loop)
    requires Inv(cfg, exact, s) && Complete(cfg, s)
    ensures s.cnt == Posts(cfg)
  {
  }

  /** The measurement loop and the drain.  An outcome of the drain comes with the run that led to it. */
  method Measure(nic: Nic, cfg: Config, exact: bool) returns (out: Outcome, takes: seq<nat>, ghost tr: seq<Loop>)
    requires Fresh(nic, cfg)
    modifies nic
    ensures nic.Valid() && Bounded(cfg, nic.load, nic.peak)
    ensures var left := if cfg.warmup > 0 then cfg.warmup % 32 else 0;
      && (out == PostFails <==>
            && cfg.iterations > 0
            && if cfg.sqDepth < 64 then left >= cfg.sqDepth
               else cfg.qpCount % 2 == 0 && left + cfg.iterations > cfg.sqDepth)
      && (out == ThrottleSpins <==> cfg.iterations > 0 && cfg.sqDepth < 64 && left < cfg.sqDepth)
    ensures out == PostFails || out == ThrottleSpins || out == DrainSpins
            || out == Finished(cfg.iterations * cfg.qpCount)
    ensures out.Finished? || out.DrainSpins? ==>
              && Run(cfg, exact, tr) && Complete(cfg, tr[|tr| - 1]) && tr[|tr| - 1].takes == takes
              && (out.DrainSpins? <==> Measurement.DrainSpins(tr[|tr| - 1]))
              && TotalPend(nic.sq) == 0 && Posted(nic.sq, Leftover(cfg), cfg.qpCount, Iterations(cfg), 0)
    ensures out.DrainSpins? ==> !exact && Sum(takes) > |takes|
    ensures out.DrainSpins? ==> cfg.sqDepth / 64 >= 2 && cfg.iterations * cfg.qpCount / 32 >= cfg.sqDepth / 64
    ensures out.Finished? && !exact ==> Sum(takes) == |takes|
    ensures out.Finished? && cfg.iterations >= 0 ==> tr != [] && out.totalOps == tr[|tr| - 1].cnt == Posts(cfg)
  {
    ConfigTerms(cfg);
    PostsIs(cfg);
    hide MeasurementPostFails, Threshold, Leftover;
    hide nic.Valid, Next, TotalPend, Posted, Poll, CanPoll, Posts;
    var totalOps := TotalOps(cfg);
    var stop, outstanding;
    stop, out, outstanding, takes, tr := PostAll(nic, cfg, exact);
    if stop {
      return;
    }
    ghost var s := tr[|tr| - 1];
    CompleteFits(cfg, exact, s);
    CompleteSpins(cfg, exact, s);
    CompleteEnd(cfg, exact, s);
    hide Inv, Run;
    var spins := false;
    if outstanding > 0 {
      var n;
      ghost var wcs;
      n, spins, wcs := PollCompletions(nic, outstanding);
      PollEffect(s.sq, wcs);
      RetireKeeps(s.sq, nic.sq, Leftover(cfg), cfg.qpCount, Iterations(cfg), 0);
    }
    out := if spins then DrainSpins else Finished(totalOps);
  }

  /** At the end of the loop the counter is not behind the pending completions. */
  lemma CompleteEnd(cfg: Config, exact: bool, s: Loop)
    requires Inv(cfg, exact, s) && Complete(cfg, s) && cfg.qpCount > 0
    ensures TotalPend(s.sq) <= s.outstanding
    ensures Posted(s.sq, Leftover(cfg), cfg.qpCount, Iterations(cfg), 0)
    ensures cfg.iterations > 0 ==> Threshold(cfg.sqDepth) > 0
    ensures !exact ==> Sum(s.takes) >= |s.takes| && s.outstanding == TotalPend(s.sq) + Sum(s.takes) - |s.takes|
  {
    BeforePost(cfg, exact, s);
    if Threshold(cfg.sqDepth) == 0 {
      FirstPost(cfg, exact, s);
    }
  }

  lemma WarmupDrained(before: seq<seq<bool>>, sq: seq<seq<bool>>, cfg: Config)
    requires Warm(before, cfg.qpCount, WarmupTurns(cfg), 0)
    requires before == sq || Retired(before, sq)
    requires TotalPend(sq) == 0
    ensures |sq| == cfg.qpCount
    ensures forall k: nat :: k < cfg.qpCount ==> sq[k] == Unsignaled(Leftover(cfg))
  {
    var w := WarmupTurns(cfg);
    forall k: nat | k < cfg.qpCount
      ensures sq[k] == Unsignaled(w % 32)
    {
      PendAtMostTotal(sq, k);
      WarmupLeavesRemainder(w, sq[k]);
    }
  }

  /** The whole benchmark.  The outcome is decided by the configuration except for one thing: whether a
      throttling poll happens to take more than one completion, in which case the drain never ends. */
  method RunBenchmark(nic: Nic, cfg: Config, exact: bool) returns (out: Outcome, takes: seq<nat>, ghost tr: seq<Loop>)
    requires nic.Valid() && |nic.sq| == cfg.qpCount > 0 && nic.depth == cfg.sqDepth
    requires forall q :: 0 <= q < cfg.qpCount ==> nic.sq[q] == []
    modifies nic
    ensures nic.Valid()
    ensures out == WarmupPostFails <==> cfg.warmup > cfg.sqDepth
    ensures var left := if cfg.warmup > 0 then cfg.warmup % 32 else 0;
      && (out == PostFails <==>
            && cfg.warmup <= cfg.sqDepth && cfg.iterations > 0
            && if cfg.sqDepth < 64 then left >= cfg.sqDepth
               else cfg.qpCount % 2 == 0 && left + cfg.iterations > cfg.sqDepth)
      && (out == ThrottleSpins <==>
            cfg.warmup <= cfg.sqDepth && cfg.iterations > 0 && cfg.sqDepth < 64 && left < cfg.sqDepth)
      && (!out.WarmupPostFails? ==> nic.load <= cfg.sqDepth / 64)
      && (!out.WarmupPostFails? && cfg.sqDepth >= 64 && cfg.qpCount % 2 == 1 ==>
            nic.peak <= left + 32 * (cfg.sqDepth / 64) <= cfg.sqDepth / 2 + 31)
    ensures out.Finished? ==> out.totalOps == cfg.iterations * cfg.qpCount
    ensures out.Finished? && cfg.iterations >= 0 ==> tr != [] && out.totalOps == tr[|tr| - 1].cnt
    ensures out.DrainSpins? ==> !exact && Sum(takes) > |takes|
    ensures out.Finished? && !exact ==> Sum(takes) == |takes|
    ensures out.Finished? || out.DrainSpins? ==>
              && Run(cfg, exact, tr) && Complete(cfg, tr[|tr| - 1]) && tr[|tr| - 1].takes == takes
              && (out.DrainSpins? <==> Measurement.DrainSpins(tr[|tr| - 1]))
              && TotalPend(nic.sq) == 0 && Posted(nic.sq, Leftover(cfg), cfg.qpCount, Iterations(cfg), 0)
    ensures out.DrainSpins? ==> cfg.sqDepth / 64 >= 2 && cfg.iterations * cfg.qpCount / 32 >= cfg.sqDepth / 64
  {
    hide nic.Valid, CanPoll, TotalPend, Posted, Run, Poll, Posts, TotalOps, Iterations, MeasurementPostFails, Warm;
    hide Retired, Measurement.DrainSpins;
    var ok, outstanding := Warmup(nic, cfg);
    takes, tr := [], [];
    if !ok {
      return WarmupPostFails, takes, tr;
    }
    ConfigTerms(cfg);
    hide Threshold, Leftover;
    ghost var before := nic.sq;
    if outstanding > 0 {
      ghost var wcs;
      var n, spins;
      n, spins, wcs := PollCompletions(nic, outstanding);
      PollEffect(before, wcs);
    }
    WarmupDrained(before, nic.sq, cfg);
    nic.Mark();
    assert nic.sq == Start(cfg).sq;
    out, takes, tr := Measure(nic, cfg, exact);
  }
}
