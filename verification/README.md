# NMEA bridge: the data path as a verified model

The bridge reads NMEA-0183 lines from a UART, frames them byte by byte, and fans each frame out to TCP
sessions through two levels of bounded queues that drop the oldest entry when full. Several threads share
the queues, a sink table and counters. This project models that data path and proves what it guarantees
in every interleaving of its threads, together with two observers of it: the status LED and the telemetry
snapshot.

It has two levels.

- **Classes** follow the C code statement by statement where it changes things in place: the framer with
  its line buffer (`Uart.dfy`), the bridge with its sink table (`Bridge.dfy`), the session's send, drain and
  session loops (`SessionLoop.dfy`), the server's slot pool (`Server.dfy`), the LED policy (`LedPolicy.dfy`),
  the LED retry loop (`LedRetry.dfy`) and the telemetry state (`Telemetry.dfy`, set against the frames
  themselves in `InputHistory.dfy`).
- **A transition system** (`System.dfy`) has one step per atomic action of one thread: a queue put or get, a
  region under a lock, a counter update, a socket result. `Invariant.dfy` states what holds in every
  reachable state, `UartSteps`, `FanSteps`, `SessionKeeps` and `ThreadSteps` show that each step keeps it,
  `Runs` carries it over whole runs, and `Theorems`, `Endings`, `CutRun`, `Progress` and `Observation` read
  off what follows.

Both levels use the same functions (`Framer.Feed`, the queue calls of `DropOldest`, `Sinks.OpenAt`,
`SessionSteps.NextLocal`, ...), and `Refinement.dfy` shows that a thread's atomic steps, when nothing
interrupts them, compute what the methods are proved to compute; of the session loop it shows this step by
step, for every interleaving.

Configuration is symbolic, with the ranges of Kconfig:108-136 and the build assertion of
src/nmea_bridge.c:13-17. 32-bit counters wrap explicitly. Fields marked "history" record what happened and
are never read by a step.

A queue is a bounded FIFO: put fails exactly when it is full, get exactly when it is empty. A send accepts
between one byte and all it was offered, accepts nothing, or fails; what recv, accept, socket and connect
return is arbitrary.

`dafny verify dfyconfig.toml` checks the whole project.

## Where the code differs from what one might expect

- A line of exactly limit + 1 bytes takes the next line along, because its newline is consumed as the
  overflow (src/uart_nmea.c:50-57). `Framer.FilterIffNoVictim` says exactly when that costs a line.
- CONTEXT.md:7-9 asks that a frame stay complete. A failed send can leave an unfinished one at the very
  end of a connection: `CutRun.FrameIsCut` is a run in which it does, and `Endings.CutExactlyMidFrame`
  says exactly when.
- `dropped_oldest` also counts gets that found the queue already emptied by its consumer
  (src/nmea_bridge.c:43-44), so the counters balance only up to those.
- Flash flags are never cleared, so 2^31 + 100 ms after the last event of a kind its flash comes back
  (src/status_led_policy.c:3-6). `LedPolicy.RenderMeetsHistory` says exactly when that shows.
- CONTEXT.md:31-33 calls the input active when accepted-frame counts increase within the window. The code
  looks for a difference of 32-bit counts and dates it by the poll that finds it:
  `InputHistory.ActiveAgainstAccepted` says exactly when that differs from frames accepted within the
  window, and `InputHistory.FirstPollDatesLate` is an input on which it does.

## Model

| member | source | states |
|---|---|---|
| Framer.FramerMeetsReference | src/uart_nmea.c:30-65 | For every byte stream the byte-wise automaton ends with the state, the published frames and the overlong count of a reference that cuts the whole stream at its newlines |
| Framer.CutLosesNothing | src/uart_nmea.c:59-64 | The reference cut is lossless: segments and tail concatenate to the stream |
| Framer.CutAtNewlines | src/uart_nmea.c:59-64 | Each reference segment ends in its only newline, and the tail has none |
| Framer.FilterIffNoVictim | src/uart_nmea.c:50-57 | The published frames are exactly the segments that fit if and only if no fitting segment follows a segment whose newline was spent on the overflow |
| Framer.FilterWithoutCriticalLength | src/uart_nmea.c:50-57 | Without a segment of exactly limit + 1 bytes, the surviving segments are exactly those that fit |
| Framer.FilterFails | src/uart_nmea.c:50-57 | For every limit: a line of limit + 1 bytes takes the line after it along |
| Framer.PublishedAreLines | src/uart_nmea.c:50-63 | On every stream only complete lines of 1 to limit bytes are published, and the buffer holds a newline-free rest that fits |
| Framer.RoundTrip | src/uart_nmea.c:38-65 | Framing any complete lines followed by an unfinished one gives back those lines, no overlong count, and the unfinished one in the buffer |
| DropOldest.EveryRun | src/nmea_bridge.c:34-49 | The queue invariant holds after every interleaving of the three producer calls with consumer gets |
| DropOldest.OrderAndSafety | src/nmea_bridge.c:34-49 | In every interleaving the queue is a contiguous run of the offered items within its depth, the consumer gets increasing positions, and no second put has failed |
| DropOldest.SecondPutHasRoom | src/nmea_bridge.c:46-48 | In every interleaving the second put finds room and puts the newest item last |
| DropOldest.NewestIsNeverDropped | src/nmea_bridge.c:43-46 | In every interleaving the item dropped is older than the newest offered |
| DropOldest.Conservation | src/nmea_bridge.c:39-48 | Offered = taken + lost + queued + in hand; the counter is losses plus gets that found nothing, so it equals the losses iff the latter are a multiple of 2^32, and there are none while fewer than `depth` gets raced |
| DropOldest.Freshness | src/nmea_bridge.c:34-49 | Every item that left the queue was taken, or was lost with at least `depth` - k newer ones behind it, k gets having fallen into the window of the call that lost it; so the last `depth` lose none without such a get |
| DropOldest.MissIsReachable | src/nmea_bridge.c:43-44 | A run in which the counter goes up although nothing was removed |
| DropOldest.PutDropOldest | src/nmea_bridge.c:34-49 | The call with any number of gets landing between its steps: the new item ends up last in the queue, the counter grows by one exactly if the queue was full, and a miss happens exactly if the gets in the first gap drained it |
| DropOldest.PutKeepsNewest | src/nmea_bridge.c:34-49 | Undisturbed, the queue keeps the newest `depth` of what it held and the new item |
| Sinks.FirstFree | src/nmea_bridge.c:138-139 | The first slot that is not active, if there is one |
| Bridge.NmeaBridge.constructor | src/nmea_bridge.c:90-97 | All slots inactive, queues empty, counters zero |
| Bridge.NmeaBridge.Publish | src/nmea_bridge.c:105-127 | -EINVAL exactly for no data, -EMSGSIZE exactly for more than the limit, else accepted; each outcome with its own counter; an accepted frame goes through put_drop_oldest |
| Bridge.NmeaBridge.Dispatch | src/nmea_bridge.c:59-84 | One turn: the table becomes the fan-out of the head of the ingest queue, the global counter grows by the drops of all slots, and publish_no_sinks by one iff no slot was active |
| Bridge.NmeaBridge.OfferToAll | src/nmea_bridge.c:63-78 | The loop over the slots computes the fan-out of the whole table and whether any slot was active |
| Bridge.NmeaBridge.OfferTo | src/nmea_bridge.c:70-76 | One slot: its queue, its counters, and the global counter by the growth of its drops |
| Bridge.NmeaBridge.Open | src/nmea_bridge.c:129-153 | The first inactive slot is activated with cleared stats and an empty queue; if there is none, -ENOMEM, handle -1 and no change; a null handle is -EINVAL and no change |
| Bridge.NmeaBridge.Close | src/nmea_bridge.c:155-170 | The slot becomes inactive and empty and the handle -1; a null handle or one out of range changes nothing |
| Bridge.NmeaBridge.TakeFrame | src/nmea_bridge.c:172-201 | All error returns, null arguments included, and on success the head of that slot's queue with the consumed count |
| Bridge.CloseFreesOneSlot | src/nmea_bridge.c:157-167 | A close leaves exactly its slot inactive and empty, every other slot as it was, and the handle at -1 |
| Bridge.TakenIsOldest | src/nmea_bridge.c:195-200 | A take from an open sink gets the oldest frame it still holds, counts it and leaves the rest in order; it fails only when the queue is empty, and then changes nothing |
| Bridge.CloseIsIdempotent | src/nmea_bridge.c:157-167 | Closing a handle again changes nothing, whatever has become of the table meanwhile |
| Bridge.FanOutReachesEveryActiveSink | src/nmea_bridge.c:65-78 | A fan-out leaves every active sink with the newest `depth` of what it held and the frame, counts a drop iff it was full, and leaves inactive slots alone |
| UartReceiver.UartThread.Receive | src/uart_nmea.c:38-64 | One byte into the fixed buffer: buffer, flag and counters follow the automaton, and the bridge accepts what is published |
| UartReceiver.UartThread.PollAll | src/uart_nmea.c:38-65 | After any input the thread stands where the whole-stream run stands, the bridge was offered exactly what that published, and nothing was refused |
| SessionLoop.TcpNmeaSession.SendAll | src/tcp_nmea_session.c:53-78 | For every socket that asks to try again finitely often: it fails exactly when a call reports zero or an error before the whole frame is accepted, the wire grows by exactly what the calls accepted, a socket without errors gets the whole frame, and the session makes one step for each call |
| SessionLoop.FallsShortIffFails | src/tcp_nmea_session.c:58-77 | The accepted chunks fall short of the frame exactly when some call reports zero or an error with bytes left, and the last call made is one that does |
| SessionLoop.OneCall | src/tcp_nmea_session.c:59-74 | "Try again" accepts nothing and does not end the sending; zero or an error accepts nothing and ends it; anything else adds what was accepted, and ends it only with the whole frame |
| SessionLoop.FaultlessSocket | src/tcp_nmea_session.c:58-77 | A socket that never reports zero or an error gets the whole frame, however often it asks to try again |
| SessionLoop.SendingMayCut | src/tcp_nmea_session.c:66-75 | A socket that takes one byte of a longer frame and then fails leaves exactly that byte accepted |
| SessionLoop.TcpNmeaSession.DrainSocketRx | src/tcp_nmea_session.c:24-51 | Reads on until an answer that is not data; ends the session exactly if that is not "would block", with the result it names; one session step for each receive |
| SessionLoop.TcpNmeaSession.OneTurn | src/tcp_nmea_session.c:95-118 | A turn is the last exactly if the drain before the take or after the send meets a close or an error, the take is refused, or the send fails; the result names which; the wire grows by the frame handed over, or what was accepted of it; and the session makes exactly the steps these answers call for |
| SessionLoop.TcpNmeaSession.RunLoop | src/tcp_nmea_session.c:95-118 | The loop runs on exactly until the first turn that ends it, writes the frames handed over whole and in order, leaves part of the last only after a failed send, ends with the result of that turn's cause, and makes the session steps of its turns in order |
| Server.ClientPool.Alloc | src/tcp_nmea_server.c:51-67 | The first free slot is taken; refused exactly when all are in use |
| Server.ClientPool.CloseClient | src/tcp_nmea_server.c:26-36 | Closes the named descriptor if there is one and frees the slot |
| Server.ClientPool.Leave | src/tcp_nmea_server.c:44-47 | After a session nothing is closed again and the slot is free |
| Server.ClientPool.CountActive | src/tcp_nmea_server.c:154-172 | The counting loop reports the number of slots in use, at most the capacity |
| Server.FullPool | src/tcp_nmea_server.c:56-63 | The search for a free slot fails exactly when every slot is in use |
| Runs.EveryRun | src/nmea_bridge.c:34-201 | The eight invariant groups hold after every interleaving of all threads |
| Theorems.TakesLinesInOrder | src/tcp_nmea_session.c:100-108 | Every session has taken lines of the reference framing of the UART stream, unaltered, at strictly increasing indices |
| Theorems.WireCarriesWholeLines | src/tcp_nmea_session.c:53-118 | At every moment the bytes a session wrote are the frames completely sent and a proper prefix of at most one more; a session that is over left one unfinished iff it ended with SEND_FAILED |
| Theorems.WireRoundTrip | src/tcp_nmea_session.c:58-77 | At every moment, framing a session's wire bytes gives back exactly the lines completely sent and the unfinished part, which at the exit test of the send loop is one more complete line |
| Endings.ResultNamesTheEnd | src/tcp_nmea_session.c:36-49 | In every run, a session past its loop has RX_FAILED, PEER_CLOSED or SEND_FAILED exactly if the step that ended it met a receive error, the peer's close or a send error; only the last leaves a part, as long as was accepted before |
| Endings.WireIsCompleteIff | src/tcp_nmea_session.c:58-77 | At every moment the wire is a sequence of complete lines exactly if no part of one is under way or all of it has been accepted |
| Endings.CutExactlyMidFrame | src/tcp_nmea_session.c:66-75 | A session that is over broke off inside a line exactly if a send met an error after some, and never all, bytes of a frame had been accepted |
| CutRun.FrameIsCut | src/tcp_nmea_session.c:66-75 | A run of the whole system from its start in which a session's wire ends inside a line |
| Theorems.SinksSuffice | src/nmea_bridge.c:13-17 | A session that asks for a sink finds one free, so TCP_NMEA_SESSION_ENDED_SINK_UNAVAILABLE is never returned |
| Counting.SinkIsFree | src/nmea_bridge.c:138-152 | The pigeonhole step: held sinks are fewer than threads, and threads no more than the build assertion provides sinks for |
| Theorems.HandlesAndSlots | src/nmea_bridge.c:129-170 | Open handles and active slots are in bijection; no two sessions share an id |
| Endings.HandleIsTakenAway | src/nmea_bridge.c:135-167 | In every run a session's handle is its own active slot from open to close and -1 before and after |
| Theorems.TakeIsNeverRefused | src/nmea_bridge.c:175-193 | The check in nmea_bridge_sink_take always passes, so the session's ENOTCONN exit is unreachable |
| Theorems.SinkHoldsSuffix | src/nmea_bridge.c:62-83 | An active sink has been offered exactly what was dispatched since it was opened, and its queue is the end of that |
| Theorems.Isolation | src/nmea_bridge.c:140-146 | A session never gets a frame whose fan-out was complete before its sink was opened |
| Theorems.SinkFreshness | src/nmea_bridge.c:65-78 | Every frame dispatched to a session's sink is queued, in hand, taken by the session, or lost behind at least `sinkDepth` - k newer ones, k takes having fallen into the window of the call that lost it |
| Theorems.IngestFreshness | src/nmea_bridge.c:124-125 | The same for the ingest queue and the dispatcher |
| Theorems.IngestConservation | src/nmea_bridge.c:121-126 | Every line framed is dispatched, lost, queued or in hand; frames_in = dispatched + dropped + length modulo 2^32 iff the misses are a multiple of 2^32 |
| Theorems.SinkConservation | src/nmea_bridge.c:195-198 | queued is the number of frames fanned out since the open; queued = consumed + dropped + length modulo 2^32 iff the misses are a multiple of 2^32 |
| Theorems.DropsAreNeverForgotten | src/nmea_bridge.c:142-143 | Clearing a slot's stats on open loses nothing of the total: drops of finished and current lifetimes add up to the drop steps of the run |
| Theorems.GlobalCounters | src/nmea_bridge.c:70-82 | Modulo 2^32, sink_dropped_oldest counts the drops at all sinks of the whole run and publish_no_sinks the fan-outs without an active sink |
| Theorems.CounterChain | src/tcp_nmea_session.c:92-93 | LED count <= active sessions <= active sinks <= server slots in use + running client <= 9, the first three equal when no session is starting or ending, and the LED count is positive whenever one is about to end |
| SessionKeeps.TallyCounts | src/status_led_policy.c:8-18 | Counting a session up or down keeps both counters equal to the sessions they count, without wrap-around and without the guard |
| Theorems.InputCounters | src/nmea_bridge.c:109-126 | publish_invalid and publish_oversize stay 0, lines_rx = frames_in between bytes, overlong_lines is the reference's overflow count |
| Theorems.Descriptors | src/tcp_nmea_server.c:109-125 | No descriptor is closed that is not open, each open one is held by exactly one place, and obtained = closed + open |
| Theorems.ServerClosesOnce | src/tcp_nmea_server.c:44-47 | close_client never closes a descriptor after a session |
| Theorems.EachClosedOnce | src/tcp_nmea_session.c:86-123 | Over every run, the zsock_close calls made and the descriptors still open add up to the descriptors obtained |
| Theorems.Backoff | src/tcp_nmea_client.c:93-106 | In every run the client's next wait is min(2^k, 30) seconds, k being the waits the run has made since the last connect that worked |
| Theorems.ConnectionResetsBackoff | src/tcp_nmea_client.c:100-102 | A connect that works sets the wait back to one second and starts the session |
| Progress.DispatcherMoves | src/nmea_bridge.c:59-84 | The dispatcher can move unless it waits for a frame, and always while it holds the lock |
| Progress.SessionMovesOn | src/tcp_nmea_session.c:80-125 | A session can move whenever its socket answers, except exactly while it needs the lock and the dispatcher holds it |
| Progress.ThreadsMoveOn | src/tcp_nmea_server.c:106-127 | The accept loop and the outbound client move whenever the network answers, and are never stuck between obtaining a descriptor and handing it over or closing it |
| Progress.LockIsReleased | src/nmea_bridge.c:62-83 | The lock is held for at most 4 * sinks + 1 dispatcher steps, and no step of another thread puts its release off |
| Refinement.DispatcherAlone | src/nmea_bridge.c:59-84 | The dispatcher's atomic steps, uninterrupted, compute everything Dispatch is proved to compute, the global drop counter included |
| Refinement.PublishAlone | src/nmea_bridge.c:34-49 | The UART thread's atomic steps, uninterrupted, compute put_drop_oldest |
| Refinement.ReceiveAlone | src/uart_nmea.c:38-64 | The UART thread's steps for one byte, uninterrupted, leave framer, counters and ingest queue as Receive does |
| Refinement.OpenAlone | src/nmea_bridge.c:136-152 | The step of nmea_bridge_sink_open is Open on the same table |
| Refinement.CloseAlone | src/nmea_bridge.c:161-168 | The step of nmea_bridge_sink_close is Close, and takes the handle away |
| Refinement.TakeAlone | src/nmea_bridge.c:179-200 | The check, the get and the count of nmea_bridge_sink_take, uninterrupted, are TakeFrame, and its result decides where the session goes |
| Refinement.LoopStepIsMove | src/tcp_nmea_session.c:95-118 | Every step a thread makes inside the session loop, in any interleaving, is one of those the loop methods are proved to make |
| Refinement.AllocAlone | src/tcp_nmea_server.c:51-67 | The accept loop's step is Alloc on the same slots |
| Refinement.LeaveAlone | src/tcp_nmea_server.c:44-47 | The end of a server thread, uninterrupted, is Leave: the slot is free, nothing is closed |
| Observation.WarningsMean | src/bridge_telemetry.c:77-92 | In the running system the data-quality warning means a non-zero 32-bit overlong count, and "connected" means some session is between start and end |
| Observation.InputsMean | src/bridge_telemetry.c:32-57 | What each collected counter is in a run: lines framed, bytes, overflows, drops at the ingest queue and at all sinks, fan-outs nobody wanted, sessions, slots |
| Observation.LinesOnlyGrow | src/nmea_bridge.c:121-126 | An earlier moment of a run has framed a prefix of what a later one has |
| Observation.PollsSeeNewLines | src/bridge_telemetry.c:72-75 | Between two polls frames_in differs iff the lines accepted in between are not a multiple of 2^32; with fewer, iff there are any |
| Observation.LedFollowsRun | src/status_led_policy.c:8-24 | In every run the LED's calls pair up within 16 bits and net to the sessions it counts, its connecting flag says whether the client is on its way to a connection, and the base state follows from the two |
| Observation.SessionCallMeans | src/tcp_nmea_session.c:92-120 | A session's LED calls go with the count going up or down, a frame completely sent, and an end by a failed send |
| Observation.OtherCallsMean | src/tcp_nmea_client.c:91-104 | The received-frame call goes with lines_rx, and the connecting calls with the outbound client's attempts and connections |
| Observation.LedShowsRun | src/status_led_policy.c:61-96 | In every run the colour is the right one for what the run has told the LED: without a flash, green 16 while sessions are counted and red 16 when there are none and the client does not dial |
| Telemetry.BridgeTelemetry.BuildSnapshot | src/bridge_telemetry.c:59-92 | The input state is active iff some poll within the last 5000 ms saw the counter move; connection state and both warnings by their inputs |
| Telemetry.ActiveMeansRecentlyMoved | src/bridge_telemetry.c:68-85 | The three remembered fields decide that for every run of polls with non-decreasing times |
| Telemetry.MemoryIsLastMove | src/bridge_telemetry.c:68-75 | The state is the last counter value and the time of the last poll that saw it move |
| InputHistory.ActiveMeansNoticed | src/bridge_telemetry.c:68-85 | On every history of accepted frames and polls, the input is shown active exactly if a poll within the window found a number of new frames that is not a multiple of 2^32 |
| InputHistory.ActiveAgainstAccepted | src/bridge_telemetry.c:68-85 | With fewer than 2^32 frames between polls: active exactly if a frame was accepted within the window, or all are older but a poll within it was the first to see the last of them |
| InputHistory.FirstPollDatesLate | src/bridge_telemetry.c:68-71 | The first poll calls the input active for a frame older than the window |
| LedPolicy.FlashInWrappedTime | src/status_led_policy.c:3-6 | A flash lit at t looks unexpired at any T iff T - t - 100 modulo 2^32 is at least 2^31, which is the unbounded comparison while T - t lies from 100 - 2^31 up to 2^31 + 99 |
| LedPolicy.FlashMeetsHistory | src/status_led_policy.c:26-45 | For every time, also before a recorded event: the flags and deadlines show a flash iff its history wants it, but for one hidden or come back by wrap-around |
| LedPolicy.RenderMeetsHistory | src/status_led_policy.c:61-82 | For every history and every time, the rendered colour is the one the unbounded-time history calls for, error over forwarded over received over base, iff no flash wrong by wrap-around outranks what is wanted |
| LedPolicy.RenderIsRightForWeeks | src/status_led_policy.c:61-82 | It is that colour while each kind that happened did so less than 2^31 + 100 ms before T and at most 2^31 - 100 ms after it |
| LedPolicy.RenderGoesWrong | src/status_led_policy.c:3-6 | At exactly 2^31 + 100 ms after a single event the wrong colour is shown |
| LedPolicy.BaseMeetsHistory | src/status_led_policy.c:8-24 | While starts and ends pair up within 16 bits, the count is their difference, and the base state is the one the history calls for |
| LedPolicy.ColourMeetsHistory | src/status_led_policy.c:61-96 | Then the whole colour follows from the history alone, as numbers: red 24, white 24 or blue 16 for 100 ms after an event, else green 16 while sessions run, the pulse while the client dials, red 16 otherwise |
| LedPolicy.ConnectingPulses | src/status_led_policy.c:105-122 | The pulse repeats every second, climbs from (4, 2, 0) to (16, 8, 0) in the first half and comes back the same way |
| LedPolicy.StatusLedPolicy.RenderNow | src/status_led_policy.c:61-82 | Rendering from the fields at any time, against the recorded history, and with the colours as numbers |
| LedPolicy.StatusLedPolicy.OnFrameReceived | src/status_led_policy.c:26-31 | The fields after the event are those of the extended history |
| LedPolicy.StatusLedPolicy.OnFrameForwarded | src/status_led_policy.c:33-38 | The same for a forwarded frame |
| LedPolicy.StatusLedPolicy.OnSendFailed | src/status_led_policy.c:40-45 | The same for a failed send |
| LedPolicy.StatusLedPolicy.OnSessionStarted | src/status_led_policy.c:8-11 | The same for a session start, with 16-bit wrap-around |
| LedPolicy.StatusLedPolicy.OnSessionEnded | src/status_led_policy.c:13-18 | The same for a session end, with the guard at zero |
| LedRetry.RetryDelayMs | src/status_led.c:68-82 | The doubling loop computes min(1000 * 2^(k-1), 5000): 1000, 2000, 4000, then 5000 ms |
| LedRetry.LedThread.Turn | src/status_led.c:95-128 | One turn of the observer: it attempts exactly if an update is due after the turns so far, and leaves the fields of the extended run |
| LedRetry.AttemptsExactly | src/status_led.c:100-124 | In every run a turn attempts exactly if its colour is not the last applied one, or none was applied, and no attempt has failed since, or min(1000 * 2^(k-1), 5000) ms have passed since the last of k failures in a row |
| LedRetry.FailedSinceSuccess | src/status_led.c:109-121 | The failures in a row are the attempts since the last success |
| LedRetry.FirstTurnAttempts | src/status_led.c:92-101 | The first turn always attempts |
| LedRetry.CounterIsFailedInARow | src/status_led.c:109-121 | The 8-bit counter is the number of failures in a row, stopped at 255 |
| LedRetry.NoEarlyRetry | src/status_led.c:100-124 | After the k-th failure in a row no attempt follows for at least min(1000 * 2^(k-1), 5000) ms, for every k, the counter stopping at 255 notwithstanding |
| LedRetry.SuccessResets | src/status_led.c:109-113 | After a success the next differing colour is attempted at once |

## Left out

- The Zephyr kernel, sockets and UART driver: only the queue, lock and call behaviour stated above.
- Reads of counters by other threads between an action and its count: a drop counter, frames_in and the
  sink statistics have one writer each, and the drop counter's increment is part of the step before it.
- src/wifi_manager.c, src/web_app.c, the web assets, src/nmea_dns_sd.c: plumbing and constants.
- Listening socket set-up and its failure paths (src/tcp_nmea_server.c:78-100), which run once.
- src/tcp_nmea_client.c as a class: its loop has two variables, the backoff and the descriptor; both are part
  of the transition system.
- The LED hardware update and bus recovery.
- Reuse of a server thread's stack once its slot is inactive: releasing the slot is the thread's last step.
- Scheduling, priorities and real time: sleeps and timeouts are steps that may happen at any moment.
- Termination of the loops against a peer that sends, or asks to try again, forever.
- Log texts, sink names and null checks in the statistics getters.
- Telemetry.BridgeTelemetry.BuildSnapshot: does not model negative times, because k_uptime_get counts from boot.
- Bridge.NmeaBridge.TakeFrame: models the call without interference; the check and the get as separate steps are in `System.dfy`.
