/** The measurement loop of the RDMA Write benchmark as a state machine: one signaled post in 32 by a counter shared
    by all queue pairs, and a throttle on a counter of outstanding completions, with every choice of completions that
    a throttling poll may take. */
module Measurement {

  import opened SignalCoverage
  import opened SendQueue

  datatype Config = Config(iterations: int, warmup: int, qpCount: nat, sqDepth: nat)

  /** The number of outstanding completions at which the measurement loop polls. */
  function Threshold(sqDepth: nat): nat {
    sqDepth / (2 * SIGNAL_INTERVAL)
  }

  /** Turns of the outer measurement loop. */
  function Iterations(cfg: Config): nat {
    if cfg.iterations > 0 then cfg.iterations else 0
  }

  /** Posts of a complete measurement loop, counted as the loop counts them. */
  function Posts(cfg: Config): nat {
    Turn(cfg.qpCount, 0, Iterations(cfg))
  }

  /** Which is the operation count that the program computes. */
  lemma PostsIs(cfg: Config)
    ensures Posts(cfg) == Iterations(cfg) * cfg.qpCount
  {
    TurnIs(cfg.qpCount, 0, Iterations(cfg));
  }

  /** What is left of the warm-up posts of each queue pair when the measurement starts. */
  function Leftover(cfg: Config): nat {
    if cfg.warmup > 0 then cfg.warmup % 32 else 0
  }

  /** Completions taken by a series of polls. */
  function Sum(takes: seq<nat>): nat {
    if takes == [] then 0 else Sum(takes[..|takes| - 1]) + takes[|takes| - 1]
  }

  /** Completions taken by the first k + 1 polls. */
  function Taken(takes: seq<nat>, k: nat): nat
    requires k < |takes|
  {
    Sum(takes[..k + 1])
  }

  /** takes can be the numbers of completions that the throttling polls of a run with the given number of
      signaled posts consume: from the threshold-th signaled post on there is one poll per signaled post,
      it consumes between 1 and 32 completions, and no more than have been signaled so far. */
  ghost predicate LegalTakes(threshold: nat, signals: nat, takes: seq<nat>)
    requires threshold > 0
  {
    && |takes| == (if signals >= threshold then signals - threshold + 1 else 0)
    && (forall k :: 0 <= k < |takes| ==> 1 <= takes[k] <= 32)
    && (forall k :: 0 <= k < |takes| ==> Taken(takes, k) <= threshold + k)
  }

  // ---------- posting histories ----------

  /** Signal flags of the measurement posts lo, ..., lo + n - 1 of queue pair q. */
  ghost function Flags(qps: nat, q: nat, lo: nat, n: nat): seq<bool> {
    seq(n, (i: nat) => Signals(qps, q, lo + i))
  }

  ghost function Unsignaled(n: nat): seq<bool> {
    seq(n, (i: nat) => false)
  }

  /** The send queue of q had nothing been polled: what the warm-up left, then n measurement posts. */
  ghost function History(left: nat, qps: nat, q: nat, n: nat): seq<bool> {
    Unsignaled(left) + Flags(qps, q, 0, n)
  }

  /** Iteration i of the measurement loop has posted to the queue pairs below q; some completions were polled. */
  ghost predicate Posted(sq: seq<seq<bool>>, left: nat, qps: nat, i: nat, q: nat) {
    && |sq| == qps
    && forall k: nat :: k < qps ==> Tail(sq[k], History(left, qps, k, if k < q then i + 1 else i))
  }

  lemma {:induction false} PendFlags(qps: nat, q: nat, lo: nat, n: nat)
    ensures Pend(Flags(qps, q, lo, n)) == CountSignals(qps, q, lo, n)
  {
    if n > 0 {
      PendFlags(qps, q, lo, n - 1);
      assert Flags(qps, q, lo, n)[..n - 1] == Flags(qps, q, lo, n - 1);
    }
  }

  /** Every 32 consecutive flags have one that is set. */
  ghost predicate Dense(s: seq<bool>) {
    forall lo {:trigger s[lo..]} :: 0 <= lo <= |s| - 32 ==> true in s[lo..][..32]
  }

  lemma {:induction false} DensePend(s: seq<bool>)
    requires Dense(s)
    ensures |s| <= 32 * Pend(s) + 31
    decreases |s|
  {
    if |s| >= 32 {
      var w, t := s[..32], s[32..];
      assert s[0..] == s;
      PendNone(w);
      assert s == w + t;
      PendConcat(w, t);
      forall lo | 0 <= lo <= |t| - 32
        ensures true in t[lo..][..32]
      {
        assert t[lo..] == s[lo + 32..];
      }
      DensePend(t);
    }
  }

  /** A covered queue pair signals at least once in every 32 posts. */
  lemma FlagsDense(qps: nat, q: nat, lo: nat, n: nat)
    requires qps > 0 && EverSignals(qps, q)
    ensures Dense(Flags(qps, q, lo, n))
  {
    var s := Flags(qps, q, lo, n);
    forall k | 0 <= k <= n - 32
      ensures true in s[k..][..32]
    {
      assert s[k..][..32] == Flags(qps, q, lo + k, 32);
      CoverageIff(qps, q);
      WindowCount(qps, q, lo + k);
      PendFlags(qps, q, lo + k, 32);
      PendNone(Flags(qps, q, lo + k, 32));
    }
  }

  /** However many completions have been polled, a queue pair whose flags are dense holds at most 31 work
      requests more than 32 per pending completion and what the warm-up left. */
  lemma TailBound(left: nat, f: seq<bool>, s: seq<bool>)
    requires Dense(f) && Tail(s, Unsignaled(left) + f)
    ensures |s| <= left + 32 * Pend(s) + 31
  {
    var h := Unsignaled(left) + f;
    var d := |h| - |s|;
    if d == 0 {
      PendConcat(Unsignaled(left), f);
      DensePend(f);
    } else {
      assert h[d - 1];
      assert s == f[d - left..];
      forall lo | 0 <= lo <= |s| - 32
        ensures true in s[lo..][..32]
      {
        assert s[lo..] == f[d - left + lo..];
      }
      DensePend(s);
    }
  }

  /** Nothing ever retires the work requests of a queue pair that never signals. */
  lemma TailOfUnsignaled(left: nat, f: seq<bool>, s: seq<bool>)
    requires true !in f && Tail(s, Unsignaled(left) + f)
    ensures |s| == left + |f|
  {
  }

  lemma Occupancy(left: nat, qps: nat, q: nat, n: nat, s: seq<bool>)
    requires qps > 0 && Tail(s, History(left, qps, q, n))
    ensures EverSignals(qps, q) ==> |s| <= left + 32 * Pend(s) + 31
    ensures !EverSignals(qps, q) ==> |s| == left + n
  {
    var f := Flags(qps, q, 0, n);
    if EverSignals(qps, q) {
      FlagsDense(qps, q, 0, n);
      TailBound(left, f, s);
    } else {
      NeverFlagged(qps, q, n);
      TailOfUnsignaled(left, f, s);
    }
  }

  lemma NeverFlagged(qps: nat, q: nat, n: nat)
    requires !EverSignals(qps, q)
    ensures true !in Flags(qps, q, 0, n)
  {
  }

  lemma RetireKeeps(before: seq<seq<bool>>, sq: seq<seq<bool>>, left: nat, qps: nat, i: nat, q: nat)
    requires Posted(before, left, qps, i, q) && Retired(before, sq)
    ensures Posted(sq, left, qps, i, q)
  {
  }

  lemma HistoryNext(left: nat, qps: nat, q: nat, i: nat)
    ensures History(left, qps, q, i + 1) == History(left, qps, q, i) + [Signals(qps, q, i)]
  {
  }

  lemma TailNext(s: seq<bool>, h: seq<bool>, signaled: bool)
    requires Tail(s, h)
    ensures Tail(s + [signaled], h + [signaled])
  {
  }

  lemma PostPends(sq: seq<seq<bool>>, q: nat, signaled: bool)
    requires q < |sq|
    ensures TotalPend(sq[q := sq[q] + [signaled]]) == TotalPend(sq) + if signaled then 1 else 0
  {
    PendConcat(sq[q], [signaled]);
    TotalUpdate(sq, q, sq[q] + [signaled]);
  }

  lemma PostKeeps(sq: seq<seq<bool>>, left: nat, qps: nat, i: nat, q: nat)
    requires Posted(sq, left, qps, i, q) && q < qps
    ensures Posted(sq[q := sq[q] + [Signals(qps, q, i)]], left, qps, i, q + 1)
    ensures TotalPend(sq[q := sq[q] + [Signals(qps, q, i)]]) == TotalPend(sq) + if Signals(qps, q, i) then 1 else 0
  {
    PostPends(sq, q, Signals(qps, q, i));
    HistoryNext(left, qps, q, i);
    TailNext(sq[q], History(left, qps, q, i), Signals(qps, q, i));
    hide TotalPend, Tail, History, Signals;
  }

  // ---------- the throttle ----------

  /** The counters of the measurement loop after cnt posts, pend completions being pending.  In the program
      (exact is false) a throttling poll lowers the counter by one, whatever it took. */
  ghost predicate Counters(threshold: nat, exact: bool, cnt: nat, outstanding: int, pend: nat, takes: seq<nat>) {
    && pend == cnt / 32 - Sum(takes)
    && |takes| <= Sum(takes)
    && (if threshold == 0 then cnt == outstanding == |takes| == 0 else outstanding < threshold)
    && (if exact then outstanding == pend else outstanding == cnt / 32 - |takes|)
    && (!exact && threshold > 0 ==> LegalTakes(threshold, cnt / 32, takes))
  }

  lemma SumAppend(takes: seq<nat>, n: nat)
    ensures Sum(takes + [n]) == Sum(takes) + n
  {
    assert (takes + [n])[..|takes|] == takes;
  }

  /** One more post that does not reach the threshold. */
  lemma CountersPost(threshold: nat, exact: bool, cnt: nat, outstanding: int, pend: nat, takes: seq<nat>)
    requires threshold > 0 && Counters(threshold, exact, cnt, outstanding, pend, takes)
    requires SignaledAt(cnt) ==> outstanding + 1 < threshold
    ensures var s := if SignaledAt(cnt) then 1 else 0;
            Counters(threshold, exact, cnt + 1, outstanding + s, pend + s, takes)
  {
  }

  /** A signaled post that reaches the threshold, and the poll that takes n completions. */
  lemma CountersPoll(threshold: nat, exact: bool, cnt: nat, outstanding: int, pend: nat, takes: seq<nat>, n: nat)
    requires threshold > 0 && Counters(threshold, exact, cnt, outstanding, pend, takes)
    requires SignaledAt(cnt) && outstanding + 1 >= threshold && 1 <= n <= 32 && n <= pend + 1
    ensures Counters(threshold, exact, cnt + 1, outstanding + 1 - (if exact then n else 1), pend + 1 - n, takes + [n])
  {
    SumAppend(takes, n);
    var t := takes + [n];
    if !exact {
      forall k | 0 <= k < |t|
        ensures Taken(t, k) <= threshold + k
      {
        if k < |takes| {
          assert t[..k + 1] == takes[..k + 1];
          assert Taken(takes, k) <= threshold + k;
        } else {
          assert t[..k + 1] == t;
        }
      }
    }
  }

  /** A full send queue in the measurement loop belongs to a starved queue pair. */
  lemma FullOnlyIfStarved(sq: seq<seq<bool>>, left: nat, qps: nat, i: nat, q: nat, depth: nat)
    requires Posted(sq, left, qps, i, q) && q < qps && left < 32
    requires Threshold(depth) > 0 && TotalPend(sq) < Threshold(depth)
    ensures EverSignals(qps, q) ==> |sq[q]| < left + 32 * Threshold(depth) < depth
    ensures !EverSignals(qps, q) ==> |sq[q]| == left + i && qps % 2 == 0
  {
    hide TotalPend, Pend, Tail, History, EverSignals;
    PendAtMostTotal(sq, q);
    Occupancy(left, qps, q, i, sq[q]);
    if qps % 2 == 1 {
      OddCoverage(qps, q, 0);
    }
  }

  lemma PostedStart(sq: seq<seq<bool>>, left: nat, qps: nat)
    requires |sq| == qps && forall k: nat :: k < qps ==> sq[k] == Unsignaled(left)
    ensures Posted(sq, left, qps, 0, 0)
  {
  }

  lemma PostedRound(sq: seq<seq<bool>>, left: nat, qps: nat, i: nat)
    requires Posted(sq, left, qps, i, qps)
    ensures Posted(sq, left, qps, i + 1, 0)
  {
  }

  // ---------- the loop ----------

  /** The send queues, the loop counters, signal_cnt, outstanding_cqes, and what each throttling poll took. */
  datatype Loop = Loop(sq: seq<seq<bool>>, i: nat, q: nat, cnt: nat, outstanding: int, takes: seq<nat>)

  /** After the warm-up has been drained. */
  ghost function Start(cfg: Config): Loop {
    Loop(seq(cfg.qpCount, (_: nat) => Unsignaled(Leftover(cfg))), 0, 0, 0, 0, [])
  }

  /** The send queues and the counter after the next post. */
  function Queues(s: Loop): (r: seq<seq<bool>>)
    requires s.q < |s.sq|
    ensures |r| == |s.sq|
  {
    s.sq[s.q := s.sq[s.q] + [SignaledAt(s.cnt)]]
  }

  function Raised(s: Loop): int {
    s.outstanding + if SignaledAt(s.cnt) then 1 else 0
  }

  /** One post and, at the threshold, the poll that throttles it: it ends with the first batch that is not empty, so
      wcs may be any 1 to 32 completions.  With exact the throttle subtracts what the poll took; the program subtracts
      one. */
  ghost predicate Post(cfg: Config, exact: bool, s: Loop, s': Loop, wcs: seq<nat>) {
    && s.i < Iterations(cfg) && s.q < cfg.qpCount == |s.sq| && |s.sq[s.q]| < cfg.sqDepth
    && if Raised(s) >= Threshold(cfg.sqDepth) then
         && 1 <= |wcs| <= 32 && CanPoll(Queues(s), wcs)
         && s' == Loop(Poll(Queues(s), wcs), s.i, s.q + 1, s.cnt + 1, Raised(s) - (if exact then |wcs| else 1),
                       s.takes + [|wcs|])
       else
         s' == Loop(Queues(s), s.i, s.q + 1, s.cnt + 1, Raised(s), s.takes)
  }

  /** The inner loop ends. */
  ghost predicate Round(cfg: Config, s: Loop, s': Loop) {
    s.i < Iterations(cfg) && s.q == cfg.qpCount && s' == s.(i := s.i + 1, q := 0)
  }

  ghost predicate Next(cfg: Config, exact: bool, s: Loop, s': Loop) {
    Round(cfg, s, s') || exists wcs :: Post(cfg, exact, s, s', wcs)
  }

  ghost predicate Run(cfg: Config, exact: bool, tr: seq<Loop>) {
    tr != [] && tr[0] == Start(cfg) && forall k :: 0 <= k < |tr| - 1 ==> Next(cfg, exact, tr[k], tr[k + 1])
  }

  /** Both loops are through. */
  predicate Complete(cfg: Config, s: Loop) {
    s.i == Iterations(cfg) && s.q == 0
  }

  /** The final drain waits for more completions than are pending. */
  predicate DrainSpins(s: Loop) {
    s.outstanding > TotalPend(s.sq)
  }

  /** Exactly when some post of the measurement loop finds its send queue full. */
  predicate MeasurementPostFails(cfg: Config) {
    cfg.iterations > 0 &&
    if Threshold(cfg.sqDepth) == 0 then Leftover(cfg) >= cfg.sqDepth
    else cfg.qpCount % 2 == 0 && Leftover(cfg) + cfg.iterations > cfg.sqDepth
  }

  /** What the loop waits for and when it fails, in terms of the configuration. */
  lemma ConfigTerms(cfg: Config)
    ensures 64 * Threshold(cfg.sqDepth) <= cfg.sqDepth < 64 * (Threshold(cfg.sqDepth) + 1)
    ensures Threshold(cfg.sqDepth) == cfg.sqDepth / 64
    ensures Leftover(cfg) == if cfg.warmup > 0 then cfg.warmup % 32 else 0
    ensures MeasurementPostFails(cfg) <==>
              && cfg.iterations > 0
              && if cfg.sqDepth < 64 then Leftover(cfg) >= cfg.sqDepth
                 else cfg.qpCount % 2 == 0 && Leftover(cfg) + cfg.iterations > cfg.sqDepth
    ensures cfg.iterations > 0 ==> Posts(cfg) == cfg.iterations * cfg.qpCount
    ensures cfg.iterations <= 0 ==> Posts(cfg) == 0 && cfg.iterations * cfg.qpCount <= 0
  {
    PostsIs(cfg);
    hide Posts;
    if cfg.iterations <= 0 {
      NotPositive(cfg.iterations, cfg.qpCount);
    }
  }

  lemma NotPositive(a: int, b: nat)
    requires a <= 0
    ensures a * b <= 0 && 0 * b == 0
  {
  }

  // ---------- the invariant ----------

  ghost predicate Fits(sq: seq<seq<bool>>, depth: nat) {
    forall k :: 0 <= k < |sq| ==> |sq[k]| <= depth
  }

  /** What every post of the measurement loop keeps. */
  ghost predicate Inv(cfg: Config, exact: bool, s: Loop) {
    && |s.sq| == cfg.qpCount && s.q <= cfg.qpCount && s.i <= Iterations(cfg)
    && (s.i == Iterations(cfg) ==> s.q == 0)
    && s.cnt == Turn(cfg.qpCount, s.q, s.i)
    && Posted(s.sq, Leftover(cfg), cfg.qpCount, s.i, s.q) && Fits(s.sq, cfg.sqDepth)
    && Counters(Threshold(cfg.sqDepth), exact, s.cnt, s.outstanding, TotalPend(s.sq), s.takes)
  }

  lemma StartInv(cfg: Config, exact: bool)
    requires cfg.qpCount > 0 && cfg.warmup <= cfg.sqDepth
    ensures Inv(cfg, exact, Start(cfg)) && TotalPend(Start(cfg).sq) == 0
  {
    var s := Start(cfg);
    PostedStart(s.sq, Leftover(cfg), cfg.qpCount);
    NonePending(s.sq);
    StartCounters(Threshold(cfg.sqDepth), exact);
    hide Posted, Counters, TotalPend;
  }

  lemma StartCounters(threshold: nat, exact: bool)
    ensures Counters(threshold, exact, 0, 0, 0, [])
  {
  }

  lemma {:induction false} NonePending(sq: seq<seq<bool>>)
    requires forall k :: 0 <= k < |sq| ==> true !in sq[k]
    ensures TotalPend(sq) == 0
  {
    if sq != [] {
      NonePending(sq[..|sq| - 1]);
      PendNone(sq[|sq| - 1]);
    }
  }

  lemma TurnZero(qps: nat, q: nat, i: nat)
    requires Turn(qps, q, i) == 0 && qps > 0
    ensures i == q == 0
  {
  }

  lemma UnpostedLength(left: nat, qps: nat, q: nat, s: seq<bool>)
    requires Tail(s, History(left, qps, q, 0))
    ensures |s| == left
  {
    TailOfUnsignaled(left, Flags(qps, q, 0, 0), s);
  }

  /** With threshold 0 only the first post is ever made. */
  lemma FirstPost(cfg: Config, exact: bool, s: Loop)
    requires Inv(cfg, exact, s) && 0 < cfg.qpCount && Threshold(cfg.sqDepth) == 0
    ensures s.i == s.q == 0 && |s.sq[0]| == Leftover(cfg) && TotalPend(s.sq) == 0
  {
    hide Fits, LegalTakes, Tail, History, TotalPend;
    TurnZero(cfg.qpCount, s.q, s.i);
    UnpostedLength(Leftover(cfg), cfg.qpCount, 0, s.sq[0]);
  }

  /** When a post of the measurement loop fails, and how full the send queue is when it succeeds. */
  lemma BeforePost(cfg: Config, exact: bool, s: Loop)
    requires Inv(cfg, exact, s) && s.q < cfg.qpCount
    ensures TotalPend(s.sq) <= s.outstanding
    ensures Threshold(cfg.sqDepth) == 0 ==>
              s.outstanding == TotalPend(s.sq) == 0 && !SignaledAt(s.cnt) && |s.sq[s.q]| == Leftover(cfg)
    ensures Threshold(cfg.sqDepth) > 0 ==> s.outstanding < Threshold(cfg.sqDepth)
    ensures Threshold(cfg.sqDepth) > 0 && |s.sq[s.q]| >= cfg.sqDepth ==>
              cfg.qpCount % 2 == 0 && Leftover(cfg) + s.i >= cfg.sqDepth
    ensures Threshold(cfg.sqDepth) > 0 && cfg.qpCount % 2 == 1 ==>
              |s.sq[s.q]| < Leftover(cfg) + 32 * Threshold(cfg.sqDepth)
  {
    hide EverSignals, LegalTakes, CanPoll;
    if Threshold(cfg.sqDepth) > 0 {
      hide Posted, Fits;
      FullOnlyIfStarved(s.sq, Leftover(cfg), cfg.qpCount, s.i, s.q, cfg.sqDepth);
      if cfg.qpCount % 2 == 1 {
        OddCoverage(cfg.qpCount, s.q, 0);
      }
    } else {
      FirstPost(cfg, exact, s);
    }
  }

  lemma FitsPost(s: Loop, depth: nat)
    requires Fits(s.sq, depth) && s.q < |s.sq| && |s.sq[s.q]| < depth
    ensures Fits(Queues(s), depth)
  {
  }

  lemma FitsPoll(before: seq<seq<bool>>, sq: seq<seq<bool>>, depth: nat)
    requires Fits(before, depth) && Retired(before, sq)
    ensures Fits(sq, depth)
  {
  }

  lemma PostInv(cfg: Config, exact: bool, s: Loop, s': Loop, wcs: seq<nat>)
    requires Inv(cfg, exact, s) && Post(cfg, exact, s, s', wcs)
    ensures Inv(cfg, exact, s') && Threshold(cfg.sqDepth) > 0
    ensures TotalPend(Queues(s)) <= Threshold(cfg.sqDepth)
  {
    hide EverSignals, LegalTakes, Counters, Posted, Fits, Retired, CanPoll, TotalPend, Pend, Poll, Threshold, Turn;
    hide Leftover, Queues, SignaledAt;
    PostQueued(cfg, exact, s);
    var T := Threshold(cfg.sqDepth);
    if Raised(s) >= T {
      PollEffect(Queues(s), wcs);
      RetireKeeps(Queues(s), s'.sq, Leftover(cfg), cfg.qpCount, s.i, s.q + 1);
      FitsPoll(Queues(s), s'.sq, cfg.sqDepth);
      CountersPoll(T, exact, s.cnt, s.outstanding, TotalPend(s.sq), s.takes, |wcs|);
    } else {
      CountersPost(T, exact, s.cnt, s.outstanding, TotalPend(s.sq), s.takes);
    }
  }

  /** The post itself, before any poll. */
  lemma PostQueued(cfg: Config, exact: bool, s: Loop)
    requires Inv(cfg, exact, s) && s.i < Iterations(cfg) && s.q < cfg.qpCount && |s.sq[s.q]| < cfg.sqDepth
    ensures |s.sq| == cfg.qpCount && TotalPend(s.sq) <= s.outstanding
    ensures Threshold(cfg.sqDepth) == 0 ==> s.outstanding == TotalPend(s.sq) == 0 && !SignaledAt(s.cnt)
    ensures Threshold(cfg.sqDepth) > 0 ==> s.outstanding < Threshold(cfg.sqDepth)
    ensures TotalPend(Queues(s)) == TotalPend(s.sq) + if SignaledAt(s.cnt) then 1 else 0
    ensures Posted(Queues(s), Leftover(cfg), cfg.qpCount, s.i, s.q + 1) && Fits(Queues(s), cfg.sqDepth)
    ensures s.cnt + 1 == Turn(cfg.qpCount, s.q + 1, s.i)
  {
    hide EverSignals, LegalTakes, Counters, Posted, Fits, TotalPend, Pend;
    BeforePost(cfg, exact, s);
    PostKeeps(s.sq, Leftover(cfg), cfg.qpCount, s.i, s.q);
    TurnNext(cfg.qpCount, s.q, s.i);
    FitsPost(s, cfg.sqDepth);
  }

  lemma RoundInv(cfg: Config, exact: bool, s: Loop, s': Loop)
    requires Inv(cfg, exact, s) && Round(cfg, s, s')
    ensures Inv(cfg, exact, s')
  {
    hide Counters, Posted, Fits, TotalPend;
    PostedRound(s.sq, Leftover(cfg), cfg.qpCount, s.i);
    TurnNext(cfg.qpCount, 0, s.i);
  }

  lemma NextInv(cfg: Config, exact: bool, s: Loop, s': Loop)
    requires Inv(cfg, exact, s) && Next(cfg, exact, s, s')
    ensures Inv(cfg, exact, s')
  {
    hide Inv, Post, Round;
    if wcs :| Post(cfg, exact, s, s', wcs) {
      PostInv(cfg, exact, s, s', wcs);
    } else {
      RoundInv(cfg, exact, s, s');
    }
  }

  lemma {:induction false} RunInv(cfg: Config, exact: bool, tr: seq<Loop>, k: nat)
    requires cfg.qpCount > 0 && cfg.warmup <= cfg.sqDepth && Run(cfg, exact, tr) && k < |tr|
    ensures Inv(cfg, exact, tr[k])
  {
    hide Inv, Next, Start;
    if k == 0 {
      StartInv(cfg, exact);
    } else {
      RunInv(cfg, exact, tr, k - 1);
      NextInv(cfg, exact, tr[k - 1], tr[k]);
    }
  }

  lemma RunStart(cfg: Config, exact: bool)
    ensures Run(cfg, exact, [Start(cfg)])
  {
  }

  lemma Extend(cfg: Config, exact: bool, tr: seq<Loop>, s: Loop)
    requires tr != [] && Run(cfg, exact, tr) && Next(cfg, exact, tr[|tr| - 1], s)
    ensures Run(cfg, exact, tr + [s])
  {
    hide Next;
  }

  // ---------- the drain ----------

  /** Nothing retires the work requests of queue pair 0 when the number of queue pairs is even, so a loop that is
      through has found room for all of them. */
  lemma CompleteFits(cfg: Config, exact: bool, s: Loop)
    requires cfg.qpCount > 0 && Inv(cfg, exact, s) && Complete(cfg, s)
    ensures !MeasurementPostFails(cfg)
  {
    if cfg.iterations > 0 {
      if Threshold(cfg.sqDepth) == 0 {
        FirstPost(cfg, exact, s);
      } else if cfg.qpCount % 2 == 0 {
        hide Counters;
        EvenStarvation(cfg.qpCount, 0);
        Occupancy(Leftover(cfg), cfg.qpCount, 0, s.i, s.sq[0]);
      }
    }
  }

  /** More completions taken than polls made: no poll of a threshold of one can find a second completion. */
  lemma ExcessNeeds(threshold: nat, signals: nat, takes: seq<nat>)
    requires threshold > 0 && LegalTakes(threshold, signals, takes) && Sum(takes) > |takes|
    ensures threshold >= 2 && signals >= threshold
  {
    assert Taken(takes, |takes| - 1) <= threshold + (|takes| - 1);
    assert takes[..|takes|] == takes;
  }

  /** The counter is ahead of the pending completions by one as soon as there has been a poll. */
  ghost predicate AheadByOne(s: Loop) {
    s.outstanding == TotalPend(s.sq) + if s.takes == [] then 0 else 1
  }

  /** The next post finds room, and its signal is one more pending completion. */
  lemma PostFits(cfg: Config, s: Loop)
    requires Inv(cfg, false, s) && s.i < Iterations(cfg) && s.q < cfg.qpCount
    requires Threshold(cfg.sqDepth) >= 2 && !MeasurementPostFails(cfg)
    ensures |s.sq[s.q]| < cfg.sqDepth && s.outstanding < Threshold(cfg.sqDepth)
    ensures TotalPend(Queues(s)) == TotalPend(s.sq) + if SignaledAt(s.cnt) then 1 else 0
  {
    hide LegalTakes, Fits, Counters, TotalPend, Pend;
    BeforePost(cfg, false, s);
    PostKeeps(s.sq, Leftover(cfg), cfg.qpCount, s.i, s.q);
    hide Posted;
  }

  lemma TakeSome(sq: seq<seq<bool>>, n: nat) returns (wcs: seq<nat>)
    requires n <= TotalPend(sq)
    ensures |wcs| == n && CanPoll(sq, wcs) && TotalPend(Poll(sq, wcs)) == TotalPend(sq) - n
  {
    wcs := SomeBatch(sq, n);
    PollEffect(sq, wcs);
  }

  /** A post whose poll takes two completions if it is the first and one if not. */
  lemma GreedyPost(cfg: Config, s: Loop) returns (s': Loop)
    requires Inv(cfg, false, s) && s.i < Iterations(cfg) && s.q < cfg.qpCount && AheadByOne(s)
    requires Threshold(cfg.sqDepth) >= 2 && !MeasurementPostFails(cfg)
    ensures Next(cfg, false, s, s') && s'.i == s.i && s'.q == s.q + 1 && AheadByOne(s')
  {
    PostFits(cfg, s);
    assert |s.sq| == cfg.qpCount;
    hide Inv, TotalPend, CanPoll, Poll, Queues, SignaledAt, Threshold, MeasurementPostFails;
    if Raised(s) >= Threshold(cfg.sqDepth) {
      var wcs := TakeSome(Queues(s), if s.takes == [] then 2 else 1);
      s' := Loop(Poll(Queues(s), wcs), s.i, s.q + 1, s.cnt + 1, Raised(s) - 1, s.takes + [|wcs|]);
      assert Post(cfg, false, s, s', wcs);
    } else {
      s' := Loop(Queues(s), s.i, s.q + 1, s.cnt + 1, Raised(s), s.takes);
      assert Post(cfg, false, s, s', []);
    }
  }

  /** Such posts lead any such run to the end of the loop. */
  lemma {:induction false} GreedyRun(cfg: Config, tr: seq<Loop>) returns (full: seq<Loop>)
    requires cfg.qpCount > 0 && cfg.warmup <= cfg.sqDepth && Run(cfg, false, tr)
    requires AheadByOne(tr[|tr| - 1]) && Threshold(cfg.sqDepth) >= 2 && !MeasurementPostFails(cfg)
    ensures Run(cfg, false, full) && Complete(cfg, full[|full| - 1]) && AheadByOne(full[|full| - 1])
    decreases Iterations(cfg) - tr[|tr| - 1].i, cfg.qpCount - tr[|tr| - 1].q
  {
    var s := tr[|tr| - 1];
    RunInv(cfg, false, tr, |tr| - 1);
    if s.i < Iterations(cfg) {
      var s': Loop;
      if s.q < cfg.qpCount {
        s' := GreedyPost(cfg, s);
      } else {
        s' := s.(i := s.i + 1, q := 0);
        assert Round(cfg, s, s');
      }
      hide Inv, Next;
      Extend(cfg, false, tr, s');
      full := GreedyRun(cfg, tr + [s']);
    } else {
      full := tr;
    }
  }

  /** What the counters say at the end of the loop. */
  lemma CompleteSpins(cfg: Config, exact: bool, s: Loop)
    requires cfg.qpCount > 0 && Inv(cfg, exact, s) && Complete(cfg, s)
    ensures DrainSpins(s) <==> !exact && Sum(s.takes) > |s.takes|
    ensures DrainSpins(s) ==> Threshold(cfg.sqDepth) >= 2 && Posts(cfg) / 32 >= Threshold(cfg.sqDepth)
    ensures !exact && Threshold(cfg.sqDepth) > 0 ==> (s.takes != [] <==> Posts(cfg) / 32 >= Threshold(cfg.sqDepth))
  {
    hide Posted, Fits, TotalPend;
    if Threshold(cfg.sqDepth) > 0 && DrainSpins(s) {
      ExcessNeeds(Threshold(cfg.sqDepth), s.cnt / 32, s.takes);
    }
  }

  /** Whether the drain can spin is decided by the configuration: some run of the program ends its loop with a counter
      ahead of the pending completions iff the loop gets through at all, the threshold of one 64th of the send queue is
      at least two, and as many signaled posts as that are made.  With the exact throttle no run does. */
  lemma DrainSpinsIff(cfg: Config, exact: bool)
    requires cfg.qpCount > 0 && cfg.warmup <= cfg.sqDepth
    ensures (exists tr :: Run(cfg, exact, tr) && Complete(cfg, tr[|tr| - 1]) && DrainSpins(tr[|tr| - 1]))
            <==> && !exact && cfg.sqDepth / 64 >= 2 && cfg.iterations * cfg.qpCount / 32 >= cfg.sqDepth / 64
                 && (cfg.qpCount % 2 == 1
                     || (if cfg.warmup > 0 then cfg.warmup % 32 else 0) + cfg.iterations <= cfg.sqDepth)
  {
    ConfigTerms(cfg);
    hide Inv, Next, MeasurementPostFails, Threshold, Posts, Leftover;
    forall tr | Run(cfg, exact, tr) && Complete(cfg, tr[|tr| - 1]) && DrainSpins(tr[|tr| - 1])
      ensures !exact && !MeasurementPostFails(cfg)
      ensures Threshold(cfg.sqDepth) >= 2 && Posts(cfg) / 32 >= Threshold(cfg.sqDepth)
    {
      RunInv(cfg, exact, tr, |tr| - 1);
      CompleteFits(cfg, exact, tr[|tr| - 1]);
      CompleteSpins(cfg, exact, tr[|tr| - 1]);
    }
    if !exact && !MeasurementPostFails(cfg) && Threshold(cfg.sqDepth) >= 2
       && Posts(cfg) / 32 >= Threshold(cfg.sqDepth) {
      var tr := [Start(cfg)];
      StartInv(cfg, exact);
      tr := GreedyRun(cfg, tr);
      RunInv(cfg, exact, tr, |tr| - 1);
      CompleteSpins(cfg, exact, tr[|tr| - 1]);
    }
  }
}
