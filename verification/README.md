# Order path of the low-latency trading platform: model and proofs

This project models the order path of the trading platform, from the lock-free queues between its threads to
the bytes in its durable logs, and proves what that path promises. It has six parts.

* **Queues.** `SpscQueue` is the ring buffer as a class over an array. `SpscSteps` is the same buffer with producer
  and consumer interleaved at every atomic load, atomic store and word copied; every schedule refines the bounded
  FIFO of `Fifo`, for every capacity of at least 2.
* **Pipeline.** `OrderBook`, `Strategy`, `Risk`, `Oms` and `Gateway` are the components, each a class proved against
  a function on its state. `ReplayRun` is the sequential replay loop. `Pipeline` and `PipelineTheorems` are the four
  threads over bounded FIFOs with a write-ahead journal, compared with that loop over every schedule. `Determinism`
  says exactly for which inputs the comparison holds on every schedule.
* **Logs and frames.** `Framing` proves once what any agreeing parser and encoder give; `Journal`, `Tcp` and `Replay`
  are the three byte formats that use it, with the FNV-1a checksum of `Checksum`. `JournalFile`, `ExactIo`, `Tcp` and
  `Replay` hold the loops that move the bytes through devices that take or give as much as they like per call.
  `ReplayMerge` merges logs.
* **Distributed nodes.** `Distributed` is the order manager node and the gateway node in lock step, with crashes and
  connection losses between any two steps. `LockStep` compares every run with the sequential runs of the two
  components, and shows that without failures every accepted order gets its answer. `Recovery` puts its journal on disk and says what a cut or torn file still
  tells about the run.
* **Routing.** `Router`, `KillSwitch` and `LiveRouter` are the multi-venue cache, the latch and the update handler.
* **Text.** `Decimal`, `Text` and `Itch` are the decimal codecs and the pipe-separated quote feed.

Schedules are finite sequences of actions chosen freely, so a statement about `Execute(Init(...), schedule)` for all
schedules is a statement about every reachable state. Messages are compared without their timestamps. A device follows
a plan, an arbitrary function from the number of a call to how much that call moves or whether it errs; success is tied
to the calls an operation made, in both directions: a send or write succeeds if and only if none of its calls erred, a
receive or read if and only if, besides, what it asks for is there. Operations that repeat these until the first failure
return everything unless a call they made erred. Where a connection breaks and the order in which a hash map is walked
are left open too.

Where the code and its own documentation differ, the model follows the code: the packed frame header is 25 bytes
(the comment at src/tcp_transport.cpp:60 speaks of 32), quantities are scaled by 10^6 (the comment at
include/llt/market_data_adapter.hpp:68 says 1), and the determinism of README.md:242-262 (same ordered input, same
output) is not unconditional for the threaded runtime. It holds exactly as far as the bounded queues hold the input: no
schedule drops anything if and only if the number of events is at most what a queue holds, 2^14 - 1 in the runtime
(`Determinism.DropFreeExactly`), and then every schedule agrees with the sequential loop with no condition on the run
(`Determinism.FittingInputIsDeterministic`). On the runtime's own feed of n updates two completed runs send the gateway
the same orders if and only if n is at most that (`Determinism.DeterministicExactly`): delivered all at once, one more
update loses an order that a run delivering them one by one sends. With drops it still holds stage by stage
(`PipelineTheorems.StagesSurviveDrops`), and from every state the threads can work off what is queued
(`Determinism.CanDrain`).

Some promises hold only under a condition, which is proved to be exact: damage to one byte goes unnoticed for the
fields no check covers (`Journal.SingleByteCorruption`, `Tcp.SingleByteCorruption`, `Replay.SingleByteCorruption`; in
replay files these include node role, sequence and timestamp, which the merge sorts by), a price loses its sign between -99 and -1 ticks
(`Decimal.PriceRoundTripExactly`), a price with more than two fractional digits is truncated correctly only if its
first nine are zero (`Decimal.PriceIsTruncationExactly`), the merged order is independent of the sort only if no two
different events tie (`ReplayMerge.CanonicalExactly`), and a response commutes with a signal unless it rejects the
order that signal creates (`Oms.ResponseCommutesWithSignal`).

## Model

| member | source | states |
|---|---|---|
| SpscQueue.SpscQueue.Push | include/llt/spsc_queue.hpp:16-30 | A push on the ring is exactly a push on the FIFO it stands for: it appends unless capacity - 1 items are queued, and otherwise counts one drop. |
| SpscQueue.SpscQueue.Pop | include/llt/spsc_queue.hpp:32-44 | A pop removes and returns the oldest item, or nothing exactly when the FIFO is empty. |
| SpscQueue.SpscQueue.IsEmpty | include/llt/spsc_queue.hpp:46-50 | Equal indices mean an empty FIFO and nothing else does. |
| SpscQueue.FullMeansOneSlotLeft | include/llt/spsc_queue.hpp:18-21 | With wrap-around, the next head meets tail exactly when capacity - 1 slots are used, and head equals tail exactly when none is. |
| SpscQueue.AdvanceHead | include/llt/spsc_queue.hpp:27-28 | Storing the next head makes the item at head the newest of the queue and changes nothing else. |
| SpscQueue.AdvanceTail | include/llt/spsc_queue.hpp:41-42 | Storing the next tail removes exactly the item at tail, which is the oldest. |
| SpscSteps.StepRefines | include/llt/spsc_queue.hpp:16-44 | Every single atomic load, store or word access keeps the invariant, stale locals included, and is either invisible or exactly the one FIFO operation it completes. |
| SpscSteps.EveryScheduleIsFifo | include/llt/spsc_queue.hpp:16-44 | Over every interleaving, popped items followed by queued items are the successful pushes in order, at most capacity - 1 are queued, every item push was called with is, in call order, pushed, refused or in the producer's hand, and dropped equals the refused pushes up to a pending increment. |
| SpscSteps.SlotsAreExclusive | include/llt/spsc_queue.hpp:27-41 | Over every interleaving the slot being written is never the slot being copied, and every word copied belongs to the oldest item exactly as its push gave it. |
| SpscSteps.FailsExactlyWhenFullOrEmpty | include/llt/spsc_queue.hpp:21-39 | A push gives up if and only if the queue is full at its load of tail; a pop returns nothing if and only if it is empty at its load of head. |
| SpscSteps.WaitFree | include/llt/spsc_queue.hpp:16-44 | Every own step brings a call closer to its end and no step or new call of the other side changes how far it is. |
| SpscSteps.PushCompletes | include/llt/spsc_queue.hpp:16-30 | From any state a push that is called completes within width + 2 own steps, having pushed exactly its item or, on a full queue, refused it and counted one drop. |
| SpscSteps.PopCompletes | include/llt/spsc_queue.hpp:32-44 | From any state a pop that is called completes within width + 2 own steps, having taken exactly the oldest item, or nothing from an empty queue. |
| Fifo.InterleavesCounts | include/llt/spsc_queue.hpp:21-25 | What was offered to a queue is, counted with multiplicity, what it took plus what it refused, and equals what it took if it refused nothing. |
| OrderBook.BookHoldsNewest | src/order_book.cpp:7-26 | After any updates in any order the book is the first one of the highest exchange sequence. |
| OrderBook.TopOfBook.Update | src/order_book.cpp:7-16 | The object's state follows the book function; stale and duplicate updates leave it alone. |
| Strategy.OnMarketData | src/strategy.cpp:9-44 | A buy signal for one unit comes out exactly when the book's spread is at least 4, one tick above the book's bid and inside its spread, for the book's symbol, numbered one above the last and addressed to the order manager. |
| Strategy.StrategyEngine.Process | src/strategy.cpp:9-44 | The engine with its book object computes exactly the strategy function. |
| Risk.RiskEngine.Check | src/risk.cpp:11-33 | An order is let through if and only if its quantity, notional and projected position are within the limits. |
| Oms.OnSignal | src/oms.cpp:11-50 | A signal yields an order or a rejection under the next client id, which is never given out again, an order exactly if risk accepts it; header, terms and reason are as stated, and of the live orders only the new one is added. |
| Oms.ResponseCommutesWithSignal | src/oms.cpp:11-68 | A gateway response may be handled before or after a signal with the same messages and the same final state, if and only if it does not reject the very order the signal creates. |
| Oms.OrderManager.ProcessSignal | src/oms.cpp:11-50 | The class with its risk engine computes exactly the order manager function. |
| Oms.OrderManager.ProcessReject | src/oms.cpp:60-68 | A reject ends exactly its own order. |
| Gateway.SendOrder | src/exchange_gateway.cpp:15-48 | Every order is answered under its own client id and to its sender, numbered consecutively: with an ack under the next exchange id if the gateway is available, otherwise with a rejection as unavailable. |
| Gateway.ExchangeGateway.Send | src/exchange_gateway.cpp:15-48 | The class computes exactly the gateway function. |
| Stage.RunIsMonotone | apps/threaded_runtime.cpp:111-153 | A stage fed more input only adds output: the output on a prefix is a prefix of the output. |
| ReplayRun.SignalCommutesWithResponses | src/oms.cpp:11-68 | A signal may be handled before or after any number of responses to earlier orders. |
| ReplayRun.OrdersAreNumbered | src/oms.cpp:14-49 | Orders come out with strictly increasing client ids, all below the next one to give out. |
| ReplayRun.GatewayAnswersInOrder | src/exchange_gateway.cpp:15-48 | The gateway's i-th response answers its i-th order, and while it is available exchange ids are consecutive. |
| ReplayRun.ReplayIsComposition | apps/replay_run.cpp:49-109 | Calling the components event by event gives the same states and outputs as running each over everything the stage before it produced. |
| ReplayRun.FeedIsOrderedAndAcked | apps/threaded_runtime.cpp:61-87 | On the runtime's own feed and limits every update becomes exactly one order, given in figures: client ids 1..n, one unit, one tick above the bid, acked under exchange ids from 1000. |
| ReplayRun.FeedInFigures | apps/threaded_runtime.cpp:61-87 | The i-th update of the feed in figures: bids cycle through 10000..10024, asks are 5 above. |
| ReplayRun.LimitsInFigures | apps/threaded_runtime.cpp:157-165 | The runtime's limits let an order through exactly if it is for one or two units, worth at most 1000000, and leaves the position between -10 and 10. |
| ReplayRun.OrdersAreJustified | apps/replay_run.cpp:49-109 | Every order of any replay buys one unit one tick above the bid of an update that was received, of its symbol and with a spread of at least 4, and keeps every limit. |
| ReplayRun.RunReplay | apps/replay_run.cpp:34-119 | The program's counters are the sizes of what the specification produces: as its gateway never rejects, acks equal orders, and rejects are the signals risk turned down. |
| Pipeline.NextKeeps | apps/threaded_runtime.cpp:57-302 | Any step of any thread keeps queue conservation, agreement of every stage with its sequential function, and the journal order. |
| Pipeline.ReachableInvariant | apps/threaded_runtime.cpp:57-302 | That invariant holds after every schedule. |
| PipelineTheorems.ScheduleIndependence | apps/threaded_runtime.cpp:105-302 | As long as no push failed, the orders the gateway received and the responses the order manager processed are prefixes of what the sequential replay loop produces from the same events, whatever the schedule. |
| PipelineTheorems.DrainedEqualsReplay | apps/replay_run.cpp:49-109 | When everything is worked off without a drop, orders, responses and all component states equal those of the sequential loop. |
| Determinism.DropFreeExactly | include/llt/message_bus.hpp:9-17 | No schedule drops a message if and only if there are at most as many events as a queue holds. |
| Determinism.FittingInputIsDeterministic | apps/threaded_runtime.cpp:57-302 | On an input that fits, every schedule's orders and responses are prefixes of the sequential loop's, and once worked off equal to them together with all component states; no condition on the run. |
| Determinism.DeterministicExactly | apps/threaded_runtime.cpp:57-302 | On the runtime's own feed of n updates all completed runs send the gateway the same orders if and only if n is at most what a queue holds. |
| Determinism.CanDrain | apps/threaded_runtime.cpp:105-302 | From every state some schedule works off everything queued without new input, and loses nothing if at most one message is in flight: the threads cannot get stuck. |
| PipelineTheorems.StagesSurviveDrops | apps/threaded_runtime.cpp:105-302 | With drops, each stage has emitted exactly its sequential output on what it popped, and the order manager is that stage with the responses applied afterwards. |
| PipelineTheorems.OrdersAreConserved | apps/threaded_runtime.cpp:180-298 | The accepted client ids are pairwise distinct and are split, without loss or duplication, over the eight places an order can be. |
| PipelineTheorems.ResponsesIncrease | apps/threaded_runtime.cpp:217-298 | Responses arrive with strictly increasing client ids, acks with strictly increasing exchange ids, each for an accepted order. |
| PipelineTheorems.WriteAhead | apps/threaded_runtime.cpp:186-250 | No order reaches the gateway queue without an earlier intent record; every record is of the kind of its message (intent, ack, reject) and the response records are the responses processed, in order; every response record has an earlier intent with its id, exactly one intent and exactly one response record exist per id, and records are numbered 1..n. |
| PipelineTheorems.LoopTurn | apps/threaded_runtime.cpp:180-250 | One turn of the order manager's loop takes exactly the oldest signal and then exactly the oldest response, where there is one, and no second signal before it has looked for a response. |
| PipelineTheorems.SentOrdersAreWithinLimits | src/risk.cpp:11-33 | Every order the gateway receives keeps every risk limit on its own. |
| Checksum.MixIsInjective | src/journal.cpp:77-81 | One FNV-1a step modulo 2^32 loses nothing: equal results mean the old hashes agree exactly when the bytes do. |
| Checksum.SingleByteChangesChecksum | src/journal.cpp:71-84 | Changing any one byte of data of any length changes its checksum. |
| Checksum.ComputeChecksum | src/journal.cpp:71-84 | The loop computes the 32-bit FNV-1a hash. |
| Checksum.KnownHashes | src/journal.cpp:71-84 | The hash gives the published FNV-1a values for the empty text and for "a". |
| Framing.DecodeTruncated | src/journal.cpp:228-308 | Cutting an encoded list anywhere leaves exactly the records that lie wholly before the cut. |
| Framing.ReencodedIsPrefix | src/journal.cpp:228-308 | On arbitrary bytes, what was decoded re-encodes to a prefix of the input, and decoding stopped only where nothing parses. |
| Journal.CrashRecovery | src/journal.cpp:228-308 | For every list of records and every truncation point the reader returns exactly the records wholly before the cut. |
| Journal.ReadIsFaithful | src/journal.cpp:228-308 | On arbitrary bytes the records returned are valid and re-encode to a prefix of the file that cannot be continued. |
| Journal.SingleByteCorruption | src/journal.cpp:257-302 | One corrupted byte anywhere in a record stops the reader right before it if and only if the checks cover that byte; otherwise exactly that one field comes back altered and reading goes on. |
| Journal.DamageHitsOneField | src/journal.cpp:160-169 | A changed header byte changes the field that stores it and no other. |
| Journal.BytesOnDisk | include/llt/journal.hpp:36-75 | The bytes of a record, offset by offset: magic, version, header size, types, numbers, payload, and its total length by message type. |
| JournalFile.ReadAll | src/journal.cpp:228-308 | The recovery loop returns what the format says the file holds. |
| JournalFile.JournalWriter.Append | src/journal.cpp:140-204 | An append succeeds if and only if the envelope has a payload, the stream was open or could be opened, and no call into it failed; success adds exactly one encoded record, failure at most part of one, and no successful record is touched. |
| JournalFile.JournalWriter.RecoverySeesAppended | src/journal.cpp:140-308 | After a stop at any moment recovery returns every successfully appended record and at most the one whose append failed. |
| ExactIo.Descriptor.SendExact | src/tcp_transport.cpp:34-52 | Whatever each call takes, all bytes go out in order if and only if no call errs, and otherwise a prefix does; the loop ends. |
| ExactIo.Descriptor.ReceiveExact | src/tcp_transport.cpp:66-84 | Whatever each call gives, exactly the next len bytes are delivered if and only if that many come and no call errs before they have. |
| Tcp.TcpConnection.SendEnvelope | src/tcp_transport.cpp:186-256 | On an open connection an envelope with a payload goes out as exactly one more frame if and only if no call errs; otherwise at most part of a frame does, and nothing for an invalid envelope. |
| Tcp.TcpConnection.SendAll | src/tcp_transport.cpp:186-256 | Sending a list stops at the first failure; all messages are sent if and only if no call errs, and at most part of one frame follows those that were. |
| Tcp.TcpConnection.ReceiveEnvelope | src/tcp_transport.cpp:258-317 | The result is the envelope of the frame at the front of the stream, however it is chunked, if and only if there is a valid frame there and no call errs. |
| Tcp.TcpConnection.ReceiveAll | src/tcp_transport.cpp:258-317 | Successive calls return envelopes of the first frames in order, and of all frames up to the first invalid one unless a call that was made errs. |
| Tcp.DeliveredFrames | src/tcp_transport.cpp:186-317 | Of the frames sent, a stream cut after any byte delivers exactly those wholly before the cut. |
| Tcp.Deliver | src/tcp_transport.cpp:186-317 | For every list of sendable envelopes, every partial send and receive size, errors on either side and a cut after any byte: what went out is the frames reported sent and at most part of one more, the bytes that arrive are those before the cut, and unless a receive call that was made errs, what is received is exactly the frames wholly in them: the whole list if every send succeeded and nothing is cut. |
| Tcp.SingleByteCorruption | src/tcp_transport.cpp:258-317 | One corrupted byte in a stream stops reception right before its frame if and only if a check covers it; otherwise the payload is intact and only a message type of equal payload size can differ in what is handed on. |
| Tcp.DamageHitsOneField | include/llt/tcp_transport.hpp:37-49 | A changed header byte changes the field that stores it and no other. |
| Tcp.BytesOnWire | include/llt/tcp_transport.hpp:37-55 | The bytes of a frame, offset by offset. |
| Replay.ReadsBack | src/replay.cpp:127-243 | A written replay file reads back event for event. |
| Replay.ReplayWriter.AppendEvent | src/replay.cpp:149-171 | The event is written if and only if no call errs, extending the file by exactly its encoding; otherwise by at most part of it. |
| Replay.ReplayWriter.Append | src/replay.cpp:127-147 | The event, written if and only if no call errs, carries the writer's role and the envelope's own type. |
| Replay.ReplayReader.Next | src/replay.cpp:203-243 | The next event is the one at the front of the file if and only if a whole event that passes the checks is there and no call errs; bytes no check covers pass unnoticed. |
| Replay.SingleByteCorruption | src/replay.cpp:203-243 | One corrupted byte stops the reader right before its event if and only if it is not in the role, sequence, timestamp or message type; there it comes out as a different event and reading goes on. |
| Replay.DamageHitsOneField | include/llt/replay.hpp:21-36 | A changed header byte changes the field that stores it and no other. |
| Replay.BytesInFile | include/llt/replay.hpp:21-36 | The bytes of an event, offset by offset. |
| Words.LeastByteFirst | include/llt/replay.hpp:21-36 | Stored numbers have their least significant byte first, in figures. |
| ReplayMerge.Merge | apps/replay_merge.cpp:27-85 | Whatever fails, what is sorted is events of the logs, in order of timestamp, then sequence, then node role. Unless a read that was made errs, it is all of them, and for logs of distinct roles the one timeline that any order of the files and any sort gives, from which every node's log can be read off. The output reads back as it if no write that was made errs, and otherwise begins with the events before the first failed write. |
| ReplayMerge.WriteLog | apps/replay_merge.cpp:76-79 | Failed writes are ignored; all events are written if and only if no call made errs, and the ones before the first failure stand whole at the front. |
| ReplayMerge.CanonicalMerge | apps/replay_merge.cpp:47-65 | For logs of distinct roles with nondecreasing time and increasing sequence, every sorted permutation is the same timeline, in order of timestamp, then sequence, then node role, and restricts to each node's log in its original order. |
| ReplayMerge.SortedInFields | apps/replay_merge.cpp:47-65 | Sorted means exactly: by timestamp, at equal timestamps by sequence, at equal sequences by node role. |
| ReplayMerge.CanonicalExactly | apps/replay_merge.cpp:47-65 | The sorted permutation is unique, whatever the sorting algorithm, if and only if only equal events tie under the comparator. |
| ReplayMerge.FileOrderIrrelevant | apps/replay_merge.cpp:29-45 | Naming the files in another order gives the same events to sort. |
| Distributed.AtMostOneInDoubt | apps/oms_node.cpp:83-152 | After any schedule of steps, crashes and connection losses the journal is matching pairs numbered 1..n with at most one trailing intent, the gateway saw exactly the journaled intents up to that last one, and recorded responses are its answers in order. |
| Distributed.NextKeeps | apps/gateway_node.cpp:132-207 | Every step of either node, crash or loss keeps the lock-step invariant: at most one message is in transit and it belongs to the unanswered intent. |
| LockStep.NothingElseHappens | apps/oms_node.cpp:83-152 | Over every schedule with crashes and losses the journaled intents, with at most one order in hand or lost in a crash, are exactly the orders the order manager's run makes of the signals received; its state is that run's with the recorded responses applied; the gateway saw those orders in order, and its replies are its own run's answers, numbered 1..m. |
| LockStep.CanFinish | apps/gateway_node.cpp:132-207 | From every state reached without failures the nodes can work off everything the strategy sends. |
| LockStep.FinishedIsComplete | apps/oms_node.cpp:83-152 | Every finished failure-free run has journaled exactly the orders of all signals, each followed by the gateway's answer to it, and both components are where their sequential runs end. |
| Recovery.CutJournalRecovers | apps/oms_node.cpp:83-152 | After any run with crashes and losses, the journal file cut after any byte reads back as the records wholly before the cut: matching intent and response pairs numbered 1..n with at most one open intent, each intent the order the gateway saw in that place and each response the one it gave. |
| Recovery.TornAppendRecovers | src/journal.cpp:140-308 | A stop in the middle of an append loses only that record: no order reached the gateway without a recovered intent, and at most the last recovered intent is open. |
| Router.CacheIsLastAccepted | src/multi_venue_router.cpp:5-37 | The cache holds, per venue and symbol and field by field, the last accepted update by arrival, and nothing else. |
| Router.BestOverHistory | src/multi_venue_router.cpp:39-79 | The best quote shows a last accepted update, its ask is the lowest (to sell, its bid the highest) of all venues' last accepted updates of the symbol, and it is absent exactly when none was accepted. |
| Router.RoutedAtBest | src/multi_venue_router.cpp:81-133 | Over any history a buy is routed at the lowest ask and a sell at the highest bid of the venues' last accepted updates, and neither exactly when there is none. |
| Router.ArrivalNotSequenceDecides | src/multi_venue_router.cpp:24-34 | Renumbering the exchange sequences of a history in any way, even backwards, changes no book but for the number itself and no price that orders are routed at: arrival alone decides. |
| Router.BestPrice | src/multi_venue_router.cpp:51-76 | All best books agree on the price, so it does not depend on map order or ties. |
| Router.MultiVenueRouter.Update | src/multi_venue_router.cpp:5-37 | The cache stays the summary of the history; only valid updates are accepted. |
| Router.MultiVenueRouter.BestAsk | src/multi_venue_router.cpp:39-58 | For every iteration order the result is a lowest ask of the symbol, or nothing if it has no book. |
| Router.MultiVenueRouter.BestBid | src/multi_venue_router.cpp:60-79 | For every iteration order the result is a highest bid of the symbol, or nothing if it has no book. |
| Router.MultiVenueRouter.RouteSignal | src/multi_venue_router.cpp:81-133 | A signal is routed exactly when a price exists, at that price, to a venue that offers it, under the symbol that venue quoted. |
| KillSwitch.EnabledExactly | src/kill_switch.cpp:170-232 | Over any events, trading is enabled if and only if every count is within its limit and no poll found the halt file. |
| KillSwitch.FirstReasonStays | src/kill_switch.cpp:180-190 | After the event that trips it, no later event re-enables trading or changes the reason. |
| KillSwitch.KillSwitch.OnRoute | src/kill_switch.cpp:204-212 | The counter and latch follow the event function. |
| KillSwitch.KillSwitch.TradingEnabled | src/kill_switch.cpp:170-178 | A poll trips on the halt file and reports the latch after that. |
| LiveRouter.SharedState.ProcessUpdate | apps/live_multi_venue_router.cpp:105-182 | One call on the shared objects changes counters, cache, latch and both logs exactly as specified, whatever venue wins a tie. |
| LiveRouter.ProcessCounts | apps/live_multi_venue_router.cpp:105-182 | A call counts one update, two routes and three equal records in both logs, or none of these, and says exactly when. |
| LiveRouter.ExactCounts | apps/live_multi_venue_router.cpp:105-182 | Over every run routes and signal numbers are twice the updates, both logs hold three records per update, and updates never exceed half the limit plus one. |
| LiveRouter.ExactRouteBound | apps/live_multi_venue_router.cpp:105-182 | The number of routes is exactly twice the smaller of the valid updates before the first poll that finds the halt file and maxRoutes / 2 + 1, and trading is still enabled exactly if no poll found it and that bound was not reached. |
| LiveRouter.TrippedIsFinal | apps/live_multi_venue_router.cpp:111-114 | Once tripped, no further call logs, routes or changes the cache or the reason. |
| LiveRouter.LogCertifiesItself | apps/live_multi_venue_router.cpp:132-173 | Feeding only the market data records of the replay log, with the venue taken from the source node, to a fresh router reproduces the whole log with every route's symbol, side, quantity and price. |
| LiveRouter.LogInFields | apps/live_multi_venue_router.cpp:52-174 | After any run both logs hold, numbered from 1, three messages for every update that took effect: the update, a signal to buy one at the lowest ask and a signal to sell one at the highest bid of all venues up to then, for its symbol, with signal numbers counted from 1. |
| Decimal.ParsePriceToTicks | src/market_data_adapter.cpp:198-266 | The loops compute the price function, with signed overflow as an explicit outcome. |
| Decimal.ParseQuantityToUnits | src/market_data_adapter.cpp:268-328 | The loops compute the quantity function, with signed overflow as an explicit outcome. |
| Decimal.QuantityIsTruncation | src/market_data_adapter.cpp:268-328 | For every decimal of any length the result is its value times 10^6 rounded toward zero, sign included, and overflow occurs exactly when that does not fit. |
| Decimal.ShortPricesAreExact | src/market_data_adapter.cpp:198-266 | With at most two fractional digits the result is the exact value in ticks, or overflow exactly when that does not fit. |
| Decimal.PriceIsTruncationExactly | src/market_data_adapter.cpp:243-263 | The result is the truncated value if and only if that fits and there are at most two fractional digits or the first nine are zero. |
| Decimal.PrintedTicks | src/kraken_futures_demo_gateway.cpp:108-118 | The printed text is a two-digit decimal of the right magnitude, with a minus sign only from -100 down. |
| Decimal.PriceRoundTripExactly | src/kraken_futures_demo_gateway.cpp:108-118 | Over all 64-bit ticks, parsing the printed price gives the ticks back if and only if they are neither the minimum nor between -99 and -1. |
| Text.JoinSplit | src/market_data_adapter.cpp:143-163 | Joining the parts restores the text, and no part contains the separator. |
| Text.SplitJoin | src/market_data_adapter.cpp:143-163 | Parts without separators are recovered from their joined text. |
| Text.SplitExtends | apps/itch_live_md.cpp:37-43 | More received text changes only the last, incomplete piece. |
| Itch.SplitPipeLine | src/market_data_adapter.cpp:143-163 | The loop yields exactly the pieces between the pipes. |
| Itch.Reassemble | apps/itch_live_md.cpp:27-43 | Lines and leftover are the pieces of the bytes received, for every chunking. |
| Itch.ReassemblyIsExact | apps/itch_live_md.cpp:27-43 | Lines with their newlines followed by the leftover are the bytes received, contain no newline, and are the only such split. |
| Itch.QuoteRoundTrip | src/market_data_adapter.cpp:456-494 | A printed quote with a short symbol free of separators and NUL normalizes to a quote of the simulated feed with exactly its prices, quantities, symbol and sequence. |
| Itch.LineIsWorth | src/market_data_adapter.cpp:456-494 | A line is skipped exactly if it does not have seven parts, the first one Q, and a sequence; the program throws exactly if it has, and one of its four numbers cannot be read; otherwise the quote has the parts in their places. |
| Itch.LongIsRead | src/market_data_adapter.cpp:482-490 | A number may have space before it and anything but a digit behind it, and is read exactly if it fits 64 bits. |
| Itch.StoredSymbolIsStart | include/llt/types.hpp:72-90 | The stored symbol is the start of the text up to 15 characters or its first NUL. |
| Itch.Receive | apps/itch_live_md.cpp:27-58 | For any bytes in any chunks the outcomes are those of normalizing each complete line of the whole stream in order, malformed lines included, up to the first line whose number makes the program throw. |
| Itch.RunIsUnique | apps/itch_live_md.cpp:37-58 | The lines determine these outcomes, so neither chunking nor anything behind a throwing line matters. |
| Itch.ReceiveFeed | apps/itch_live_md.cpp:27-60 | However a feed of printed quotes is chunked, exactly the quotes come out, each with its own bid, ask, quantities, symbol and sequence. |

## Left out

- SpscSteps.EveryScheduleIsFifo: acquire and release are taken as sequentially consistent interleaving of the individual accesses; weaker orderings are not modelled.
- Risk.RiskEngine.Check: the product of quantity and price and the projected position are unbounded integers, without 64-bit overflow.
- Strategy.OnMarketData: prices are unbounded integers, without overflow of the spread.
- Pipeline.NextKeeps: queue operations are atomic steps (justified by SpscSteps.StepRefines), journal appends succeed, threads stop only by no longer being scheduled, and counters do not wrap.
- Pipeline.ReachableInvariant: no cumulative position bound is claimed, because the order manager never feeds fills to its risk engine.
- ReplayMerge.Sort: stands for std::sort as an insertion sort on a sequence instead of in place on a vector; only its contract is used, and ReplayMerge.CanonicalExactly shows no other choice can matter.
- ReplayMerge.Merge: the output file could be opened; of the bytes behind a failed write nothing is claimed, since the program goes on writing behind the torn record.
- Replay.ReplayWriter.Append: the 112 bytes of an envelope are opaque.
- Replay.ReplayWriter.AppendEvent: the writer is open; a call on one that never opened, which fails at once, is left out.
- JournalFile.JournalWriter.Append: a stream that has failed stays failed; closing and reopening a journal is not modelled, so neither is appending behind a torn tail.
- Distributed.AtMostOneInDoubt: one run from an empty journal with successful appends; restart, the nodes' replay logs, metrics and the Kraken mode of the gateway are not modelled, and messages travel whole (frames are the subject of Tcp).
- Recovery.CutJournalRecovers: of a payload only the client order id is tied to the message; its other fields are opaque bytes.
- Determinism.DeterministicExactly: compares the orders the gateway receives; that some schedule completes is shown, that the operating system schedules every thread is not.
- Router.MultiVenueRouter.Update: receive timestamps and the reason texts of decisions are left out.
- KillSwitch.KillSwitch.TradingEnabled: the trigger timestamp, `reset` and races between atomic accesses outside the mutex are left out.
- LiveRouter.SharedState.ProcessUpdate: both log writes succeed; metrics and the periodic printout are left out.
- Decimal.ParsePriceToTicks: only the default scale of 100, which every caller uses.
- Timestamps in messages, and therefore staleness checks and latency metrics.
- Sockets, TLS, WebSocket and HTTPS clients, file-system calls, thread pinning and signals: I/O and foreign calls.
- HMAC, SHA-256 and base64 of the Kraken client: foreign calls.
- The JSON field extractors and the normalizers built on them: substring heuristics that do not claim to parse JSON.
- Logging and metrics: off the order path.
- Node health, the multi-symbol book, name tables, demos and report printers: they would add only easy members.
