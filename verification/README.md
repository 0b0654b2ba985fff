# RDMA example programs: models and proofs

The book's example programs (`src/code`) share one difficulty: work is posted to an adapter, and everything that
follows depends on completions that arrive later, in an order the program does not control. The modules here model the
programs together with the contract of the adapter, the connection manager or the socket they use, and prove what the
programs rely on. Polls may return any number of the available completions, none included; adapters, peers and the
network move whenever they like. Where a program does not have a property it is meant to have, the model keeps the
program as it is, and the exact condition for the property is proved.

| module | program | what it is about |
|---|---|---|
| `SignalCoverage`, `SendQueue`, `Measurement`, `Benchmark` | `ch12-benchmark/rdma_bench.c` | one post in 32 signaled by a counter shared by all queue pairs, the throttle, the drain |
| `Exchange`, `Tcp` | `common/rdma_common.c` | records over a byte stream with short reads and writes |
| `Connect`, `PingPong` | `ch09-rc-pingpong/rc_pingpong.c` | bringing up two queue pairs, the barrier, the echo loop |
| `HeaderRead` | `ch09-rdma-read/rdma_read.c` | a header and a payload read remotely while they are being stored |
| `WriteNotify` | `ch09-rdma-write/rdma_write.c` | remote write, then notification |
| `Srq`, `SrqTeardown` | `ch11-srq-example/srq_example.c` | one buffer pool for many queue pairs; setup that may fail anywhere, and its cleanup |
| `UdPool`, `UdDrop` | `ch09-ud-example/ud_send.c` | datagrams that may be lost, the ring of receive buffers, and when it is empty |
| `Ledger`, `Cm`, `CmServer`, `CmClient`, `CmJoint` | `ch10-cm-client-server/*.c` | the resources of a connection, both event loops, both processes together |

Adapters take their turns before and after every statement that touches what they share with the program; a poll that
finds nothing is such a turn. What imperative code does in place is a class or a method with loops (`Nic`, `Socket`,
`QueuePair`, the two `Demo` classes, `Receiver`, `Library`, `Process`, the benchmark loops, the transfer helpers); two
processes that run against each other are a state machine whose steps are those of either process or of the adapters,
and the results are about all its runs.

Things the proofs bring out about the programs:

- Benchmark: the warm-up never polls, so it needs `warmup <= sq_depth`; the defaults (5000 and 512) do not have it.
  With an even number of queue pairs the even-numbered ones never signal and fill up for good. With `sq_depth < 64`
  the threshold is 0 and the first poll waits for a completion that no post asked for. A throttling poll may take up
  to 32 completions while the counter drops by one; the final drain waits for the difference for ever. Subtracting
  what `poll_completions` returns removes that. When the warm-up completions are more than 1024, that is, when
  qp_count * (warmup / 32) is, they can overrun the completion queue.
- Barrier: the program ignores the results of its one-byte `write` and `read`. Both sides past the barrier are
  connected in any case, but if a `read` fails its side can get there while the queue pair of the other is still in
  RESET, and if a `write` fails the other side can wait in its `read` for ever.
- Header read: the server fills its buffer after the barrier and stores the magic first. The client can accept the
  magic and read zeros. Storing the magic last makes the bytes right but, since reading the header is not atomic, not
  their number; filling before the barrier makes both right.
- Connection manager: a server that accepted a second connection, or whose setup failed, leaves identifiers behind
  when it destroys the event channel; a client that has set its connection up and whose loop ends on anything but
  DISCONNECTED leaves it behind and destroys its identifier under a live queue pair. The client's "message sent" may
  be printed on the completion of the answer.
- Datagrams: the receiver posts its buffers after the barrier. A network that loses nothing is sure not to deliver
  into an empty receive queue only if no more datagrams are sent than buffers are posted before the barrier, that is,
  as written, if none is; and a loop that waits for all of them can then wait for ever.

## Model

| member | source | states |
|---|---|---|
| SignalCoverage.CoverageIff | src/code/ch12-benchmark/rdma_bench.c:416-421 | with the shared counter, queue pair q ever posts a signaled write iff gcd(qp_count, 32) divides 31 - q |
| SignalCoverage.SignalPeriod | src/code/ch12-benchmark/rdma_bench.c:416-421 | the signaled posts of a queue pair are exactly an arithmetic progression with period 32 / gcd(qp_count, 32) |
| SignalCoverage.WindowCount | src/code/ch12-benchmark/rdma_bench.c:416-421 | any 32 consecutive posts of a queue pair contain gcd(qp_count, 32) signaled ones if it is covered and none otherwise |
| SignalCoverage.OddCoverage | src/code/ch12-benchmark/rdma_bench.c:416-421 | for odd qp_count exactly one of any 32 consecutive posts of each queue pair is signaled |
| SignalCoverage.EvenStarvation | src/code/ch12-benchmark/rdma_bench.c:416-421 | for even qp_count no even-numbered queue pair ever signals |
| SignalCoverage.TurnNext | src/code/ch12-benchmark/rdma_bench.c:415-418 | the nested loops visit the values of the shared counter one by one, wrapping from the last queue pair to the next iteration |
| SendQueue.PollEffect | src/code/ch12-benchmark/rdma_bench.c:363-382 | polling any sequence of completions leaves every send queue a tail of what it was, cut just after a signaled request, and lowers the pending completions by the number polled |
| SendQueue.PollCounts | src/code/ch12-benchmark/rdma_bench.c:363-382 | the pending completions of a queue pair drop by the number of its completions polled |
| SendQueue.PollBatches | src/code/ch12-benchmark/rdma_bench.c:363-382 | polling in two batches is polling in one go: the same completions can be polled, and the send queues left are equal |
| SendQueue.SomeBatch | src/code/ch12-benchmark/rdma_bench.c:368-369 | any number of pending completions, up to all, can be the ones a poll takes |
| SendQueue.Nic.PostSend | src/code/ch12-benchmark/rdma_bench.c:335-361 | a post fails exactly when the send queue is full and otherwise appends one request with its flag |
| SendQueue.Nic.PollCq | src/code/ch12-benchmark/rdma_bench.c:368-369 | takes any number of the available completions up to the limit and retires what they complete; does not stay empty for ever while some are pending |
| Benchmark.PollCompletions | src/code/ch12-benchmark/rdma_bench.c:363-382 | spins for ever iff fewer completions are pending than asked for; otherwise takes at least count and at most count + 31 |
| Benchmark.Warmup | src/code/ch12-benchmark/rdma_bench.c:392-402 | succeeds iff warmup <= sq_depth, and then qp_count * (warmup / 32) completions are pending, as counted |
| Benchmark.WarmupOverrunIff | src/code/ch12-benchmark/rdma_bench.c:392-405 | before the drain more completions than the completion queue has entries can have arrived iff qp_count * (warmup / 32) > 1024 |
| Benchmark.WarmupLeavesRemainder | src/code/ch12-benchmark/rdma_bench.c:403-405 | the drain after the warm-up leaves warmup mod 32 unsignaled requests in each send queue |
| Measurement.Occupancy | src/code/ch12-benchmark/rdma_bench.c:415-432 | a send queue holds at most left + 32 * pending + 31 requests if it ever signals, and all requests ever posted, growing with the iterations, if it never does |
| Measurement.CountersPoll | src/code/ch12-benchmark/rdma_bench.c:426-431 | counter conservation over a throttling poll that takes n completions: the counter stays pending completions plus the sum of n - 1 over the polls so far, or exactly the pending completions in the variant |
| Measurement.CountersPost | src/code/ch12-benchmark/rdma_bench.c:417-427 | counter conservation over a post below the threshold |
| Measurement.PostInv | src/code/ch12-benchmark/rdma_bench.c:417-431 | one post and any poll that may throttle it keep the counter law, the posting histories and the depth of every send queue; pending completions never exceed the threshold |
| Benchmark.PostAndThrottle | src/code/ch12-benchmark/rdma_bench.c:417-431 | one turn of the loop is a step of the state machine and keeps its invariant and, for odd qp_count, the occupancy bound; it stops only where a post must fail or with threshold 0 |
| Benchmark.PostAll | src/code/ch12-benchmark/rdma_bench.c:415-433 | the nested loops go through a run of the state machine to its end, or stop where a post must fail or the threshold is 0 |
| Measurement.PostsIs | src/code/ch12-benchmark/rdma_bench.c:387 | the posts of a complete loop, counted by signal_cnt, are iterations * qp_count |
| Benchmark.Measure | src/code/ch12-benchmark/rdma_bench.c:411-437 | the outcome of loop and drain in terms of the configuration, with the run that led to it: a post fails or the throttle spins under exactly the conditions that RunBenchmark gives; the drain ends iff no throttling poll took more than one completion; the exact variant always drains; the operation count reported is iterations * qp_count, the number of posts made |
| Benchmark.RunBenchmark | src/code/ch12-benchmark/rdma_bench.c:384-450 | with L = warmup mod 32, or 0: the warm-up fails iff warmup > sq_depth; otherwise, if iterations > 0, a post fails iff sq_depth < 64 and L >= sq_depth, or sq_depth >= 64, qp_count is even and L + iterations > sq_depth, and the throttle spins iff L < sq_depth < 64; the rest finishes with iterations * qp_count operations, or spins in the drain iff some throttling poll took more than one completion; at most sq_depth / 64 completions are ever pending, and for odd qp_count and sq_depth >= 64 no send queue exceeds L + 32 * (sq_depth / 64) <= sq_depth / 2 + 31 |
| Measurement.DrainSpinsIff | src/code/ch12-benchmark/rdma_bench.c:415-437 | decided by the configuration: some run of the loop over the send queues reaches a drain that spins iff sq_depth / 64 >= 2, iterations * qp_count / 32 >= sq_depth / 64 and qp_count is odd or warmup mod 32 + iterations <= sq_depth; no run of the variant does |
| Exchange.ExchangeCorrect | src/code/common/rdma_common.c:119-179 | for every fragmentation and interleaving each peer has received exactly the other's records so far, and at the end all of them with no byte left in either direction |
| Exchange.NextInv | src/code/common/rdma_common.c:119-179 | every short write, short read or switch of phase of either side keeps: what is under way is what was sent and not read |
| Exchange.StuckInWriting | src/code/common/rdma_common.c:161-179 | the only way to be stuck is both sides writing the same exchange into full buffers |
| Exchange.NoDeadlock | src/code/common/rdma_common.c:161-179 | no reachable state is stuck if in every exchange one direction buffers a whole record |
| Exchange.NextDecreases | src/code/common/rdma_common.c:119-179 | every transfer uses up some of a bound |
| Exchange.Completes | src/code/common/rdma_common.c:161-179 | from every reachable state the exchanges can be completed when the records fit |
| Exchange.DeadlockReached | src/code/common/rdma_common.c:161-179 | if in some exchange neither direction buffers its record, a run gets stuck |
| Exchange.DeadlockFreeIff | src/code/common/rdma_common.c:161-179 | write-then-read on both sides is free of deadlock iff in every exchange some direction buffers a whole record |
| Tcp.RecordRoundTrip | src/code/common/rdma_common.h:71-77 | decoding the bytes of a queue pair record gives the record back |
| Tcp.RecordLayout | src/code/common/rdma_common.h:71-77 | the 32 bytes of the record are queue pair number, local identifier and sequence number, least significant byte first at offsets 0, 4 and 8, four zero bytes, and the 16 bytes of the GID |
| Tcp.Socket.Write | src/code/common/rdma_common.c:125-131 | write may be short, fail or be interrupted |
| Tcp.Socket.Read | src/code/common/rdma_common.c:144-154 | read may be short, see the end of the stream, fail or be interrupted |
| Tcp.WriteAll | src/code/common/rdma_common.c:119-136 | appends exactly the data to the stream, or fails after a proper part of it; its calls are turns of the exchange of `Exchange` |
| Tcp.ReadAll | src/code/common/rdma_common.c:138-159 | fills the buffer with exactly the next bytes of the stream and reads none beyond, or fails having read fewer; its calls are turns of the exchange of `Exchange` |
| Tcp.ExchangeQpInfo | src/code/common/rdma_common.c:161-169 | writes the local record and returns the record the peer encoded; the turns of its calls lead from the beginning of one record to the beginning of the next |
| Connect.RtsThroughRtr | src/code/ch09-rc-pingpong/rc_pingpong.c:33-97 | whatever transitions are attempted in whatever order, a queue pair in RTS has entered INIT, RTR and RTS in this order and RTR once |
| Connect.EveryWayGone | src/code/ch09-rc-pingpong/rc_pingpong.c:33-97 | and some series of attempts goes every such way, with any number of repetitions of INIT and RTS |
| Connect.LocalInfo | src/code/common/rdma_common.c:278-299 | the published record has the number of the queue pair and the low 24 bits of the random number as sequence number |
| Connect.QueuePair.BringUp | src/code/ch09-rc-pingpong/rc_pingpong.c:276-285 | from RESET or INIT reaches RTS through INIT and RTR with the peer's number and sequence numbers; otherwise changes nothing |
| Connect.StepInv | src/code/ch09-rc-pingpong/rc_pingpong.c:269-291 | every step of either process keeps the messages under way and the attributes consistent |
| Connect.Crossing | src/code/ch09-rc-pingpong/rc_pingpong.c:269-291 | once both sides have left the barrier, or one has read its byte, both queue pairs are in RTS, reached by INIT, RTR, RTS only, each naming the other as destination and expecting the sequence number the other sends from; writes and reads of the barrier may fail |
| Connect.LeavingIsReading | src/code/ch09-rc-pingpong/rc_pingpong.c:287-291 | as long as no barrier read fails, a side has left the barrier iff it has read its byte |
| Connect.LeaverIsSafeIff | src/code/ch09-rc-pingpong/rc_pingpong.c:269-291 | in all runs a side that has left the barrier finds both queue pairs ready iff reads of the barrier cannot fail |
| Connect.LeftAlone | src/code/ch09-rc-pingpong/rc_pingpong.c:287-291 | with a failing read, whose result the program ignores, one side can leave the barrier while the other's queue pair is in RESET |
| Connect.BarrierPassed | src/code/ch09-rc-pingpong/rc_pingpong.c:269-291 | no run has more than 14 steps, and it has 14 iff both sides get past the barrier |
| Connect.GetsThroughIff | src/code/ch09-rc-pingpong/rc_pingpong.c:287-291 | every run is sure to get both sides past the barrier iff the barrier's write cannot fail or a read that has nothing to read fails; faults that may happen do not count as progress |
| Connect.WaitsForEver | src/code/ch09-rc-pingpong/rc_pingpong.c:287-291 | with a failing write, whose result the program ignores, one side is through and the other waits in its read, with no fault on its own side |
| PingPong.TokenPassing | src/code/ch09-rc-pingpong/rc_pingpong.c:303-337 | at most one message is undelivered, iterations differ by at most one, each side has consumed one send and one receive completion per iteration, and the client's buffer at the end of iteration i is "ping-" with i in at least six decimal digits, cut to the message size, a NUL, and zeros |
| PingPong.BufferSafety | src/code/ch09-rc-pingpong/rc_pingpong.c:304-335 | no step changes the bytes of a send that is not complete, although each side receives into the same buffer |
| PingPong.NextInv | src/code/ch09-rc-pingpong/rc_pingpong.c:303-337 | every step of either side or adapter keeps the accounting of posts, deliveries and completions |
| PingPong.NoDeadlock | src/code/ch09-rc-pingpong/rc_pingpong.c:303-337 | only the final state has no next step |
| PingPong.NextMeasure | src/code/ch09-rc-pingpong/rc_pingpong.c:303-337 | every step lowers the measure by exactly one |
| PingPong.RunsComplete | src/code/ch09-rc-pingpong/rc_pingpong.c:303-337 | every complete run has 13 steps per iteration and ends with both loops done, all queues empty and both buffers holding "ping-", iters - 1 in at least six decimal digits, cut to the message size, a NUL, and zeros |
| PingPong.PingTextIs | src/code/ch09-rc-pingpong/rc_pingpong.c:323 | the formatted text of iteration i is "ping-" and decimal digits whose value is i, six of them or as many as needed; no later text is shorter |
| HeaderRead.FaithfulIff | src/code/ch09-rdma-read/rdma_read.c:300-382 | the accepted bytes are the server's in every interleaving iff the message does not fit or no nonzero byte is stored after the barrier, the magic and the length |
| HeaderRead.CompleteIff | src/code/ch09-rdma-read/rdma_read.c:300-382 | the whole message is accepted in every interleaving iff it is empty, or the length is stored before the barrier and no byte is late |
| HeaderRead.FillBeforeBarrier | src/code/ch09-rdma-read/rdma_read.c:300-322 | filling before the barrier makes every accepted message complete |
| HeaderRead.MagicLast | src/code/ch09-rdma-read/rdma_read.c:319-322 | storing the magic last makes every accepted byte the server's |
| HeaderRead.AsWrittenIsNotPublished | src/code/ch09-rdma-read/rdma_read.c:300-382 | with barrier, magic, length, sequence, payload in that order some run accepts the magic and reads a wrong payload, for every message whose first byte is not zero |
| HeaderRead.LateByteRead | src/code/ch09-rdma-read/rdma_read.c:351-382 | any byte that can be late is read as zero in some run |
| HeaderRead.EmptyPayloadRead | src/code/ch09-rdma-read/rdma_read.c:351-382 | a length not stored before the barrier is read as zero, with the right magic, in some run |
| HeaderRead.NextInv | src/code/ch09-rdma-read/rdma_read.c:308-382 | every store and every fetched cell keeps: header cells and payload bytes that were fetched are zero or the server's value |
| HeaderRead.RejectedIff | src/code/ch09-rdma-read/rdma_read.c:362-366 | the client finds an invalid magic in some run iff the magic is not stored before the barrier |
| HeaderRead.ReadFailsIff | src/code/ch09-rdma-read/rdma_read.c:368-382 | its read of the payload fails in some run iff the announced length exceeds the remote region or its own buffer |
| WriteNotify.NotifiedAfterWrite | src/code/ch09-rdma-write/rdma_write.c:301-337 | when the server has polled the notification its memory begins with the text, or the first size - 1 characters of it, and a NUL: all strlen + 1 bytes the client wrote |
| WriteNotify.EndOfRun | src/code/ch09-rdma-write/rdma_write.c:301-337 | complete runs end well on both sides iff the text, cut to fit, and its NUL fit the remote region; otherwise the client fails and the server waits |
| WriteNotify.NextInv | src/code/ch09-rdma-write/rdma_write.c:301-337 | every step of client, server and adapters keeps the invariant behind it |
| WriteNotify.NextDecreases | src/code/ch09-rdma-write/rdma_write.c:301-337 | every step uses up some of a bound |
| WriteNotify.PayloadLength | src/code/ch09-rdma-write/rdma_write.c:318-324 | strlen + 1 of the filled buffer is the text, or its first size - 1 characters, with its NUL |
| Srq.ExactlyOnePlace | src/code/ch11-srq-example/srq_example.c:417-449 | every buffer is in exactly one of posted, filled and not yet polled, held; the three together count all buffers |
| Srq.AccountedTotal | src/code/ch11-srq-example/srq_example.c:411-449 | two completions per queue pair at most, and two for each exactly when all messages have arrived and been acknowledged |
| Srq.IntactDeliver | src/code/ch11-srq-example/srq_example.c:435-445 | filling a posted buffer leaves the filled ones alone |
| Srq.Demo.PostRecv | src/code/ch11-srq-example/srq_example.c:60-78 | reposting a held buffer never exceeds the capacity of the shared receive queue |
| Srq.Demo.Deliver | src/code/ch11-srq-example/srq_example.c:373-449 | a message goes into the oldest posted buffer, at any time, while the program sends or holds a buffer too; a held buffer is left alone, conservation, intact contents and the low-water mark are kept |
| Srq.Demo.Turns | src/code/ch11-srq-example/srq_example.c:373-449 | any number of deliveries and acknowledgements keeps the invariant and the bytes of a held buffer |
| Srq.Demo.Take | src/code/ch11-srq-example/srq_example.c:417-433 | any of the completions there are can be the next one, so a send's may come before or after that of its receive |
| Srq.Demo.PollCq | src/code/ch11-srq-example/srq_example.c:417-433 | hands over any one completion or none; a receive comes with its buffer, which holds the text of the reported queue pair, or its first 255 characters, and a NUL |
| Srq.Demo.Consume | src/code/ch11-srq-example/srq_example.c:435-445 | reads the delivered text, or its first 255 characters, with its NUL; leaves the buffer zeroed and posted last, with any deliveries in between |
| Srq.Demo.RunDemo | src/code/ch11-srq-example/srq_example.c:373-457 | for any numbers of queue pairs and buffers, every order of completions and deliveries at every moment: one receive per queue pair, read as the text sent, or its first 255 characters, and a NUL; two completions each, all buffers posted again, never fewer than buffers - queue pairs posted |
| SrqTeardown.LeftNext | src/code/ch11-srq-example/srq_example.c:462-475 | at its turn in the cleanup a resource is live iff its pointer is set, and nothing made from it is left |
| SrqTeardown.Demo.InitShared | src/code/ch11-srq-example/srq_example.c:209-291 | returns 0 iff its nine calls succeed and stops at the first that fails; wherever that is, exactly the live resources have a pointer |
| SrqTeardown.Demo.PostBuffers | src/code/ch11-srq-example/srq_example.c:293-299 | returns 0 iff every buffer can be posted |
| SrqTeardown.Demo.InitQueuePairs | src/code/ch11-srq-example/srq_example.c:302-341 | returns 0 iff all 2 * queue pairs creations succeed; wherever it stops, exactly the live resources have a pointer |
| SrqTeardown.Demo.ConnectQueuePairs | src/code/ch11-srq-example/srq_example.c:346-365 | returns 0 iff the three transitions of every queue pair succeed |
| SrqTeardown.Demo.InitResources | src/code/ch11-srq-example/srq_example.c:176-368 | returns 0 iff all its calls succeed and stops at the first that fails; wherever that is exactly the live resources have a pointer; on success all of them are live |
| SrqTeardown.Demo.Cleanup | src/code/ch11-srq-example/srq_example.c:462-475 | releases every created resource exactly once and no parent before its dependents |
| SrqTeardown.Lifecycle | src/code/ch11-srq-example/srq_example.c:480-511 | for every number of queue pairs and buffers and every point of failure nothing is left, nothing is released twice, nothing out of order; initialisation succeeds iff none of its 9 + buffers + 8 * queue pairs calls fails, and the first failing call is the last |
| UdPool.SlotsDisjoint | src/code/ch09-ud-example/ud_send.c:232-243 | the 16 buffers of 296 bytes share no byte and lie inside the block |
| UdPool.OneBuffer | src/code/ch09-ud-example/ud_send.c:84-100 | bytes written into one buffer change that buffer only |
| UdPool.PrintedIs | src/code/ch09-ud-example/ud_send.c:309-318 | printing from behind the header gives the datagram's text, or its first 255 characters, whatever an earlier one has left behind it |
| UdPool.BalancedTotal | src/code/ch09-ud-example/ud_send.c:306-324 | what was handed over is part of what arrived, without repetition |
| UdPool.Receiver.Arrive | src/code/ch09-ud-example/ud_send.c:84-100 | at any time, while the program holds a buffer too, a datagram fills the oldest posted buffer, or is dropped if none is posted; a held buffer is left alone |
| UdPool.Receiver.Turns | src/code/ch09-ud-example/ud_send.c:303-326 | any number of arrivals and losses keeps the invariant and the bytes of a held buffer |
| UdPool.Receiver.PostAll | src/code/ch09-ud-example/ud_send.c:287-301 | all buffers are in circulation after the pre-posting, datagrams arriving meanwhile included |
| UdPool.Receiver.PollCompletion | src/code/common/rdma_common.c:204-223 | returns the oldest completion with its intact buffer, or spins for ever, which it does only when no datagram is on its way |
| UdPool.Receiver.Receive | src/code/ch09-ud-example/ud_send.c:303-326 | the receive loop ends iff at least num_msgs datagrams arrive, arrivals and losses between a poll and the next post included; each printed line is the text of its datagram, or its first 255 characters, read from its own buffer before that is posted again, none twice |
| UdDrop.NextInv | src/code/ch09-ud-example/ud_send.c:286-326 | every post, poll, repost, arrival or loss keeps: a datagram is dropped only after as many have been received as buffers were posted before the barrier |
| UdDrop.NextDecreases | src/code/ch09-ud-example/ud_send.c:286-326 | every step uses up some of a bound, so every run ends |
| UdDrop.NoDropIff | src/code/ch09-ud-example/ud_send.c:286-301 | no run over a network without losses drops a datagram iff no more are sent than buffers are posted before the barrier |
| UdDrop.StuckEndsIff | src/code/ch09-ud-example/ud_send.c:303-326 | a run that cannot go on, whatever was lost, has ended its loop iff as many datagrams were received as it waits for |
| UdDrop.LoopEndsIff | src/code/ch09-ud-example/ud_send.c:286-326 | every complete run over a network without losses ends the loop iff it waits for no more datagrams than are sent and than buffers are posted before the barrier |
| UdDrop.AsWrittenWaits | src/code/ch09-ud-example/ud_send.c:286-326 | with 16 buffers, the first posted after the barrier, as written, some run without a loss drops a datagram and waits for ever, however many are sent |
| Cm.Down | src/code/ch10-cm-client-server/cm_server.c:171-183 | the last part of a connection can be released: nothing is made from it |
| Cm.DescendReverses | src/code/ch10-cm-client-server/cm_server.c:171-183 | the release order is the acquisition order backwards |
| Cm.Process.Open | src/code/ch10-cm-client-server/cm_server.c:268-281 | the event channel, then the process's own identifier: returns 0 iff both calls succeed; otherwise which of them failed and what is live |
| Cm.Process.SetUp | src/code/ch10-cm-client-server/cm_server.c:86-184 | returns 0 iff all eight calls (context, domain, completion queue, two regions, queue pair, receive, accept) succeed, and then has acquired the six parts in this order; otherwise it stops at the first failing call and releases exactly what was acquired before it, last first, leaving the live set as it was |
| Cm.Process.Attempt | src/code/ch10-cm-client-server/cm_client.c:97-197 | the ladder of labels itself, the same in client and server: the rung it has reached is that of the first failing call |
| Cm.Process.Transfer | src/code/ch10-cm-client-server/cm_server.c:189-236 | returns 0 iff the three calls of the ESTABLISHED handler succeed |
| Cm.Process.TakeDown | src/code/ch10-cm-client-server/cm_client.c:253-267 | releases the six parts in reverse order and keeps the identifier |
| CmServer.Ready | src/code/ch10-cm-client-server/cm_server.c:311-339 | no handler meets a connection in the wrong state: contexts are live whenever they are used, requests concern new identifiers |
| CmServer.OnConnectRequest | src/code/ch10-cm-client-server/cm_server.c:86-184 | returns 0, with the whole connection live, iff none of the eight calls of the setup fails; a failing setup leaves the identifier and nothing else of the connection |
| CmServer.OnDisconnected | src/code/ch10-cm-client-server/cm_server.c:242-257 | releases the whole connection with its identifier |
| CmServer.Handle | src/code/ch10-cm-client-server/cm_server.c:311-339 | one turn of the event loop logs success iff none of the calls of the handler fails (eight for a request, three for an established connection), and keeps the live set equal to what the log says |
| CmServer.Loop | src/code/ch10-cm-client-server/cm_server.c:307-339 | for every obedient sequence of events the loop handles them in order, stops exactly after the first failure, disconnection or unexpected event, logs only successes iff no call failed, and leaves the live set of its log |
| CmServer.Listen | src/code/ch10-cm-client-server/cm_server.c:268-303 | the four calls before the loop: returns 0 iff they succeed; otherwise which of them failed and what is live |
| CmServer.CloseDown | src/code/ch10-cm-client-server/cm_server.c:341-343 | the channel is destroyed in order iff no identifier is left |
| CmServer.ServerMain | src/code/ch10-cm-client-server/cm_server.c:262-347 | returns 1 iff one of the four calls before the loop fails, leaving what the calls before it made; otherwise the exact live set at exit as a function of the log; releases were in order iff it is empty, which it is iff no request or a single served one was handled |
| CmServer.CleanExitIff | src/code/ch10-cm-client-server/cm_server.c:307-343 | the live set at exit is empty iff there was no request, or a single one whose disconnection ended the loop |
| CmServer.SecondClientLeaks | src/code/ch10-cm-client-server/cm_server.c:311-343 | an obedient sequence of events, all handled successfully, after which the whole second connection is live |
| CmServer.FailedSetupLeaks | src/code/ch10-cm-client-server/cm_server.c:316-320 | after a failed setup the identifier, and nothing else of the connection, is live |
| CmClient.Ready | src/code/ch10-cm-client-server/cm_client.c:318-365 | no handler uses a context that is not live |
| CmClient.Handle | src/code/ch10-cm-client-server/cm_client.c:318-365 | one turn of the event loop logs success iff none of the calls of the handler fails (one, eight and three by stage), and keeps the live set equal to what the log says |
| CmClient.Loop | src/code/ch10-cm-client-server/cm_client.c:314-365 | for every obedient sequence of events the loop handles them in order, stops exactly after the first failure or event that is no stage, logs only successes iff no call failed, and leaves the live set of its log |
| CmClient.Resolve | src/code/ch10-cm-client-server/cm_client.c:284-310 | the three calls before the loop: returns 0 iff they succeed; otherwise which of them failed and what is live |
| CmClient.CloseDown | src/code/ch10-cm-client-server/cm_client.c:367-369 | identifier and channel go; in order iff the connection is not open |
| CmClient.ClientMain | src/code/ch10-cm-client-server/cm_client.c:272-373 | returns 1 iff a call before the loop fails, leaving what the calls before it made; otherwise the exact live set at exit: the connection without its identifier, or nothing; in order iff nothing; nonempty iff the setup succeeded and the loop ended on anything but DISCONNECTED |
| CmClient.LeakIff | src/code/ch10-cm-client-server/cm_client.c:314-369 | something is live at exit iff the setup succeeded and the loop ended on anything but DISCONNECTED, and then every part but the identifier |
| CmClient.RejectionLeaks | src/code/ch10-cm-client-server/cm_client.c:343-347 | an obedient sequence of events, all handled successfully, that ends in a rejection and leaves the connection live |
| CmJoint.NeverReceiverNotReady | src/code/ch10-cm-client-server/cm_client.c:161-243 | in every joint run each message in flight finds a posted receive |
| CmJoint.TwoPolls | src/code/ch10-cm-client-server/cm_client.c:220-243 | two polls of the client mean its message is acknowledged and the answer, which says 27 bytes, is in its buffer, in either order of completion |
| CmJoint.FirstPollIff | src/code/ch10-cm-client-server/cm_client.c:220-243 | in every run the completion that the client polls first is that of its send iff that was acknowledged before the answer arrived |
| CmJoint.FirstPollMayBeAnswer | src/code/ch10-cm-client-server/cm_client.c:220-231 | a run in which the first poll is the answer and the message is not yet acknowledged |
| CmJoint.ServerReadsHello | src/code/ch10-cm-client-server/cm_server.c:199-220 | the server's first poll is the receive of the client's 27 bytes, which are in its buffer, and its answer, posted or arrived, says 27 bytes |
| CmJoint.NextInv | src/code/ch10-cm-client-server/cm_server.c:149-237 | every step of either process or adapter keeps completions, messages and receives consistent |
| CmJoint.NoDeadlock | src/code/ch10-cm-client-server/cm_client.c:202-248 | no reachable state is stuck before both sides are through |
| CmJoint.NextDecreases | src/code/ch10-cm-client-server/cm_client.c:202-248 | every step uses up some of a bound |
| CmJoint.EndOfRun | src/code/ch10-cm-client-server/cm_client.c:202-248 | a complete run was given up before the connection was accepted, or has both messages acknowledged, both receives used and all completions polled |

## Left out

- Completion errors: all results are about successful completions, except the refused write in `WriteNotify`.
  `poll_completions` returns -1 on an error and its callers ignore it (`src/code/ch12-benchmark/rdma_bench.c:404`);
  that path is not modelled.
- Benchmark.RunBenchmark: the operation count is an unbounded integer, where the program computes it in an `int` and
  so needs iterations * qp_count < 2^31; the floating-point figures, the clock, the payload bytes and the slot offsets
  are not modelled.
- SendQueue.Nic.PostSend: a send queue holds exactly the requested number of requests; adapters may round it up.
- Benchmark.PollCompletions: where the program would spin for ever the model stops and says so.
- The responder side of the benchmark: all client queue pairs are connected to one remote queue pair, so only the
  sending side generalises to several queue pairs.
- What follows an overrun of the benchmark's completion queue: not modelled. When the warm-up can cause one is stated
  by `WarmupOverrunIff`; in the measurement loop at most sq_depth / 64 completions are pending, as `RunBenchmark`
  states.
- Connect.Crossing: messages are whole records; that reads and writes deliver them whole is shown in `Exchange` and
  `Tcp`. A failing record exchange ends the program and is not modelled.
- Tcp.ExchangeQpInfo: what the peer does meanwhile is folded into the inbound stream; both sides together are the
  subject of `Exchange`.
- PingPong, Connect, HeaderRead, WriteNotify, Exchange, UdDrop and CmJoint: two processes are values with one step
  relation, not classes; an empty poll changes nothing and is not a step.
- HeaderRead.AsWrittenIsNotPublished: cells stand for the header fields and the payload bytes; a field is stored and
  fetched whole. The message is given with its NUL.
- Srq.Demo.RunDemo: for at least one buffer; with none the demo cannot receive. Failing posts are not modelled.
- SrqTeardown.Demo.Create: the pointers of the global structure are one record of flags; addresses are not modelled.
- Cm.Process.Transfer: posting and polling inside the ESTABLISHED handler are three calls that succeed or fail here;
  what they do is the subject of `CmJoint`.
- CmServer.Loop: the connection manager is assumed to report nothing about an identifier before its request or after
  its disconnection. The context pointers are not modelled as fields; a handler requires the context to be live
  instead.
- CmClient.Loop: the connection manager is assumed to report each resolution once, and the connection only once the
  route is resolved.
- CmJoint.EndOfRun: the setups may fail, posts and polls may not; a disconnection does not flush a message that has
  been delivered but not acknowledged.
- UdPool.Receiver.Receive: an address handle, queue keys and the sender's loop are not modelled; the network may lose
  datagrams and reorder them but not duplicate them.
- Device discovery, option parsing, printing, socket setup, address resolution, memory keys, GIDs and path attributes.
- The asynchronous event thread of the shared receive queue demo: it only waits for events and sets the limit again.
