# Formal model of the detector daemon's algorithmic cores

The muon detector software runs a daemon that reads an event rate from GPIO edges, an analogue trace from an ADC and a
position from a GNSS receiver, keeps histograms and logs, draws on a small OLED panel, and serves its data to clients
over a framed TCP protocol. This project models the parts of it that carry invariants and proves what they promise.

| file | what it models |
|---|---|
| `Wire.dfy` | frames, big-endian fields, the FNV-1a checksum (section 2 of draft-eastlake-fnv), one call of the frame parser |
| `Connection.dfy` | the receiving loop over arbitrary chunks, and the connection object with its write queue |
| `Delivery.dfy` | two end points with posted handlers, partial writes and reads in any interleaving |
| `Sessions.dfy` | the session table of the server and the connection list of the sink |
| `Scheduler.dfy` | the timer loop, with every lock region and every unlocked read as a step of its own |
| `ThreadPool.dfy` | the worker pool and the event bus on top of it |
| `Histogram.dfy` | the autoscaling histogram, over real numbers |
| `RateBuffer.dfy` | edge, coincidence and deadtime filters, and the sliding rate |
| `Kalman.dfy`, `Geohash.dfy` | the position filter and the geohash |
| `AdcTrace.dfy`, `LogEngine.dfy` | two state machines, with guarantees over every run |
| `Framebuffer.dfy`, `Raster.dfy` | the rotated frame buffer, Bresenham's line and the midpoint circle |
| `ConfigText.dfy`, `Credentials.dfy` | escaping and the pattern that reads assignments; storing, clearing and reading credentials |
| `Common.dfy` | an option type |

State that the program changes in place is held by classes. Each of their methods is tied to a function on values
(`ensures View() == Step(old(View()), ...)` and the like), and the statements about whole runs are lemmas about those
functions. In `Scheduler`, `ThreadPool` and `Delivery` a step is what happens between two points where another
thread or handler may come in, and a run is any sequence of steps at all: a step that is not possible changes nothing.
Clock readings, GPIO events, ADC samples, accepted sockets and the result of number parsing are parameters.

## What the proofs found

- `Histogram::fill` does not end when autoscaling is on, the content is below 1e-6, the value falls outside the bins and
  the range is not positive or there is no bin; otherwise one re-entry is enough (`FillEnds`). Content below 1e-6 can be
  lost on that re-entry (`FillLosesUnderflow`); `FillExact` gives the exact condition.
- `rescale(center, width)` drops previous under/overflow, so only in-range content is preserved.
- Two events count as coincident below 51 microseconds rather than at most 50, because of the truncation
  (`CoincidenceExact`).
- When LOG_ON_CHANGE is forced to publish, it publishes the last value but keeps the first as its reference
  (`OnChangePublished`, `OnChangeReference`). The LOG_ONCE branch says it does not
  store repeated parameters, yet the code stores them.
- A write that failed leaves its frame at the head of the queue, so a later send to that connection queues behind it and
  no write is started any more (`TcpConnection.OnWritten`).
- A payload above 1 MiB is framed and sent without complaint, and then makes the peer close (`OversizedFrameRejected`).
  This is why `EndToEnd` speaks of payloads up to 1 MiB.
- The credential filter trims spaces and tabs only, while the reader's pattern skips all white space. An assignment
  behind a vertical tab, form feed or carriage return therefore survives storing and clearing (`StoreExact`,
  `ShadowIff`, `VerticalTabShadows`). Every store also adds one empty line (`RepeatedStore`), and the filter removes
  lines that merely start with `mqtt_user` or `mqtt_password` (`LostLines`, `SimilarNameLost`).

## Model

| member | source | states |
|---|---|---|
| `Wire.ParseExact` | library/src/network/tcpconnection.cpp:112-161 | the parser accepts a buffer as packet p with leftover r if and only if p is sendable and the buffer is the frame of p followed by r: parsing inverts framing, in both directions |
| `Wire.ParseStable` | library/src/network/tcpconnection.cpp:112-161 | a packet or an error found in a buffer is found again whatever bytes follow; only "need more" can change |
| `Wire.CorruptFrameRejected` | library/src/network/tcpconnection.cpp:144-153 | a frame in which exactly one payload byte was altered is rejected with the checksum error, whatever follows it |
| `Wire.OversizedFrameRejected` | library/src/network/tcpconnection.cpp:134-137 | a frame the sender can build but whose payload exceeds 1 MiB is refused as oversized |
| `Wire.OneByteChangesChecksum` | library/src/network/tcpconnection.cpp:179-186 | payloads of equal length that differ in exactly one byte have different checksums |
| `Wire.FnvStepInjective` | library/src/network/tcpconnection.cpp:181-184 | one round of the 32-bit FNV-1a hash is injective in the running hash and in the byte |
| `Wire.FnvInjective` | library/src/network/tcpconnection.cpp:179-186 | different running hashes stay different over any common remainder |
| `Wire.MulInverse` | library/src/network/tcpconnection.cpp:183 | multiplying by 16777619 modulo 2^32 is undone by multiplying by 899433627 |
| `Wire.ComputeChecksum` | library/src/network/tcpconnection.cpp:179-186 | the checksum loop computes the fold the lemmas are about |
| `Wire.BuildFrame` | library/src/network/tcpconnection.cpp:188-205 | the in-place writes into a zeroed buffer produce header, payload and checksum, and nothing else |
| `Wire.WriteU16` | library/src/network/tcpconnection.cpp:217-220 | overwrites exactly two bytes with the big-endian value and keeps all others |
| `Wire.WriteU32` | library/src/network/tcpconnection.cpp:222-227 | overwrites exactly four bytes with the big-endian value and keeps all others |
| `Wire.ReadWrittenU16` | library/src/network/tcpconnection.cpp:207-210 | reading gives v if and only if the two bytes are the ones written for v |
| `Wire.ReadWrittenU32` | library/src/network/tcpconnection.cpp:212-215 | reading gives v if and only if the four bytes are the ones written for v |
| `Wire.FrameLayout` | library/src/network/tcpconnection.cpp:188-205 | where everything is in a frame, byte by byte: magic 4D 55 4F 4E, version 0 1, key, payload size, payload, checksum, all most significant byte first |
| `Wire.ChecksumVectors` | library/src/network/tcpconnection.cpp:179-186 | the hash of the empty payload is 811C9DC5 and of the byte 61 is E40C292C |
| `Wire.XorBit` | library/src/network/tcpconnection.cpp:182 | the exclusive or, bit by bit |
| `Wire.WriteHeader` | library/src/network/tcpconnection.cpp:194-197 | the first four writes produce the header and touch nothing behind it |
| `Connection.DrainMaximal` | library/src/network/tcpconnection.cpp:103-108 | on arbitrary bytes, valid or not, the parse loop delivers exactly the maximal run of valid frames the bytes start with, a notion defined without the parser |
| `Connection.DrainAppend` | library/src/network/tcpconnection.cpp:103-108 | parsing a stream in two instalments gives the packets, leftover and verdict of parsing it at once |
| `Connection.ChunkingIndependence` | library/src/network/tcpconnection.cpp:91-110 | however a stream is cut into reads, the delivered packets are the maximal valid-frame prefix of the whole and the verdict is that of the whole |
| `Connection.SameStreamSamePackets` | library/src/network/tcpconnection.cpp:91-110 | two ways to cut the same stream deliver the same packets |
| `Connection.LiveBufferBounded` | library/src/network/tcpconnection.cpp:112-142 | after a read, a live connection buffers fewer than 16 + 2^20 bytes |
| `Connection.TcpConnection.constructor` | library/src/network/tcpconnection.h:64-65 | a fresh connection has empty buffers and an empty write queue |
| `Connection.TcpConnection.CloseWithError` | library/src/network/tcpconnection.cpp:80-89 | closes the socket, keeps the first reason, and calls the disconnect handler on every call |
| `Connection.TcpConnection.OnPosted` | library/src/network/tcpconnection.cpp:33-54 | is the sending step that the link of two end points is built from: append the frame, and start a write exactly when the queue was empty |
| `Connection.TcpConnection.OnWritten` | library/src/network/tcpconnection.cpp:163-177 | is the completion step of that link: drop the written frame and go on if there is more; an error closes and leaves the queue in place with no write under way |
| `Connection.TcpConnection.TryParsePacket` | library/src/network/tcpconnection.cpp:112-161 | one packet delivered and its bytes erased, or nothing, or the connection closed with the matching reason, as the parse result says |
| `Connection.TcpConnection.OnRead` | library/src/network/tcpconnection.cpp:91-110 | append and parse loop together equal the receiver step that chunking independence is proved about; the loop ends |
| `Delivery.EndToEnd` | library/src/network/tcpconnection.cpp:33-54 | in every interleaving of sends, partial writes, completions and reads, the peer has been handed a prefix, in order, of the packets sent, stays open, has all of them once everything is drained, and one write is outstanding exactly while the queue is not empty |
| `Delivery.StepConserves` | library/src/network/tcpconnection.cpp:163-177 | the bytes read, in transit, queued and posted together only ever grow, by the frame of each send |
| `Delivery.SentIsHistory` | library/src/network/tcpconnection.cpp:33-54 | the packets counted as sent are the sendPacket calls of the run, in order |
| `Delivery.PrefixOfValidStream` | library/src/network/tcpconnection.cpp:103-108 | on any prefix of a valid stream the parser stays open and delivers a prefix of the packets |
| `Delivery.AlwaysProgress` | library/src/network/tcpconnection.cpp:163-177 | while anything is pending some action other than a send brings the pair closer to being drained |
| `Delivery.CanFinish` | library/src/network/tcpconnection.cpp:163-177 | from every reachable state the link can be driven, without further sends, to one where the peer has everything |
| `Scheduler.SafetyOverAllRuns` | daemon/src/core/scheduler.cpp:49-99 | in every run each id has at most one live copy, queued or in flight, and nothing in flight was popped before it was due |
| `Scheduler.StepCopies` | daemon/src/core/scheduler.cpp:117-128 | no step duplicates a task; only drawing a fresh id makes a copy |
| `Scheduler.CopiesExact` | daemon/src/core/scheduler.cpp:49-128 | copies of a task are conserved exactly by every step: one more when it is created, none left when it ends, the same otherwise; it ends only by stop, by a cancel the loop sees, or after an invocation that returned false, has no positive interval or found the flag cleared |
| `Scheduler.TaskKept` | daemon/src/core/scheduler.cpp:49-128 | no step loses or alters a live task unless it ends; only the clock reading after a call changes its due time, to one interval later |
| `Scheduler.RepeatingTaskReturns` | daemon/src/core/scheduler.cpp:84-92 | after an invocation that returned true, while running and not cancelled, the four steps of the loop put exactly one entry of the task into the queue, due exactly one interval after the clock reading, whatever other threads do in between |
| `Scheduler.DueIsStarted` | daemon/src/core/scheduler.cpp:60-81 | at the head of a running loop a due task of least time is started, or dropped if it was cancelled |
| `Scheduler.NoStartBeforeDue` | daemon/src/core/scheduler.cpp:60-81 | no invocation starts before the due time of its task |
| `Scheduler.AfterCancel` | daemon/src/core/scheduler.cpp:44-47 | after cancel(id) at most one invocation of the task can still start, and only if it was already popped, wherever between check and push the cancel lands |
| `Scheduler.IntervalAfterFinish` | daemon/src/core/scheduler.cpp:84-92 | every later start of a repeating task comes at least its interval after the finish of this invocation |
| `Scheduler.NeverAgain` | daemon/src/core/scheduler.cpp:84-92 | a task that returned false, or has no positive interval, is never started again |
| `Scheduler.NothingStartsAfterStop` | daemon/src/core/scheduler.cpp:27-42 | once stop() has cleared the flag no task is started until start() is called again |
| `Scheduler.NothingRunsAfterStop` | daemon/src/core/scheduler.cpp:39-42 | when stop() returns no invocation is running and none will be until start() |
| `Scheduler.QueueStaysDrained` | daemon/src/core/scheduler.cpp:96-98 | the loop leaves an empty queue, which only a new schedule can fill |
| `Scheduler.TaskScheduler.constructor` | daemon/src/core/scheduler.h:34-40 | an idle scheduler with nothing queued |
| `Scheduler.TaskScheduler.StartThread` | daemon/src/core/scheduler.cpp:22-25 | is the start step of the runs the safety lemmas quantify over |
| `Scheduler.TaskScheduler.Stop` | daemon/src/core/scheduler.cpp:27-34 | is the stop step under the lock |
| `Scheduler.TaskScheduler.CancelTask` | daemon/src/core/scheduler.cpp:44-47 | is the cancel step |
| `Scheduler.TaskScheduler.Schedule` | daemon/src/core/scheduler.cpp:117-120 | is the step that draws an id nobody else gets |
| `Scheduler.TaskScheduler.Every` | daemon/src/core/scheduler.cpp:101-104 | schedules the task for now, with the interval |
| `Scheduler.TaskScheduler.OnceAt` | daemon/src/core/scheduler.cpp:106-108 | schedules the task for the given time, without an interval |
| `Scheduler.TaskScheduler.OnceAfter` | daemon/src/core/scheduler.cpp:110-115 | schedules the task for the given number of milliseconds from now, without an interval |
| `Scheduler.TaskScheduler.PushCreated` | daemon/src/core/scheduler.cpp:121-125 | is the push under the lock |
| `Scheduler.TaskScheduler.Top` | daemon/src/core/task.h:16 | finds a task with the least due time, the ordering of the queue |
| `Scheduler.TaskScheduler.LoopHead` | daemon/src/core/scheduler.cpp:54-75 | leaves with an empty queue when stopped; otherwise pops a due task of least time whenever there is one, and discards it if cancelled |
| `Scheduler.TaskScheduler.BeforeCall` | daemon/src/core/scheduler.cpp:77-82 | is the call, or its omission once stopped |
| `Scheduler.TaskScheduler.AfterCall` | daemon/src/core/scheduler.cpp:84-94 | is the test, the unlocked read of the cancelled set, the clock reading or the push, whichever is next |
| `ThreadPool.Conservation` | daemon/src/core/thread_pool.cpp:21-71 | every accepted task is at all times in exactly one of queued, running, finished or dropped by stop; tasks start in FIFO order; a finished one has called its handlers in order, each once |
| `ThreadPool.EachPublishRunsOnce` | daemon/src/core/event_bus.h:28-52 | in a running pool at rest every publish that had a subscriber has run the handlers subscribed at its moment, each exactly once and in order, and nothing else was run |
| `ThreadPool.Origins` | daemon/src/core/event_bus.h:28-52 | in every run each publish that had a subscriber is in exactly one place, once: pending, accepted by the pool, or refused after stop; what is pending or accepted holds exactly the handlers subscribed at its moment |
| `ThreadPool.RestMeansFinished` | daemon/src/core/thread_pool.cpp:51-71 | a running pool with an empty queue and no busy worker has run every task it ever accepted, to the end |
| `ThreadPool.PoolComesToRest` | daemon/src/core/thread_pool.cpp:51-71 | on every schedule of a running pool with a worker and no new tasks: worker turns count down exactly to rest, some worker can take one as long as it is not at rest, and at rest every accepted task is finished; no task waits for ever |
| `ThreadPool.RestReachable` | daemon/src/core/thread_pool.cpp:51-71 | from every reachable running state fetches and calls alone lead to rest with every accepted task finished |
| `ThreadPool.RunningPoolMoves` | daemon/src/core/thread_pool.cpp:51-64 | a running pool is at rest or some worker can take a turn; a waiting worker takes the oldest queued task |
| `ThreadPool.RunningTurn` | daemon/src/core/thread_pool.cpp:51-71 | each turn of a worker in a running pool uses up exactly one of those that remain |
| `ThreadPool.PublishSnapshot` | daemon/src/core/event_bus.h:32-43 | publish takes the handlers subscribed so far in subscription order, and does nothing if and only if there is none |
| `ThreadPool.SubscribersAreHistory` | daemon/src/core/event_bus.h:54-59 | the stored handlers of a type are the subscriptions of the run, in order |
| `ThreadPool.AfterStop` | daemon/src/core/thread_pool.cpp:21-48 | after stop the queue stays empty and nothing is accepted or started |
| `ThreadPool.WorkerStepDescends` | daemon/src/core/thread_pool.cpp:51-71 | after stop every turn of a worker that has not left reduces the remaining work of the pool |
| `ThreadPool.AllWorkersExit` | daemon/src/core/thread_pool.cpp:21-38 | after stop, on every schedule: the turns taken by workers are bounded by the work they had left, a worker that has not exited can always take one, and once they are used up all have exited |
| `ThreadPool.ExitReachable` | daemon/src/core/thread_pool.cpp:21-38 | from any state after stop there is such a schedule |
| `ThreadPool.PoolAndBus.constructor` | daemon/src/core/thread_pool.cpp:7-15 | n waiting workers and nothing else |
| `ThreadPool.PoolAndBus.AddHandler` | daemon/src/core/event_bus.h:54-59 | is the subscribe step of those runs |
| `ThreadPool.PoolAndBus.TakeSnapshot` | daemon/src/core/event_bus.h:32-43 | is the snapshot step, and reports whether there was a subscriber |
| `ThreadPool.PoolAndBus.EnqueueTask` | daemon/src/core/thread_pool.cpp:40-49 | is the enqueue step: queue at the end, or refuse once stopped |
| `ThreadPool.PoolAndBus.StopPool` | daemon/src/core/thread_pool.cpp:21-29 | is the stop step: everything queued is dropped |
| `ThreadPool.PoolAndBus.FetchTask` | daemon/src/core/thread_pool.cpp:51-64 | is the fetch step: wait, leave, or take the oldest task |
| `ThreadPool.PoolAndBus.RunHandler` | daemon/src/core/event_bus.h:47-51 | is one turn of the handler loop of a task |
| `Histogram.AutoscalePreserves` | library/src/data/histogram.cpp:257-293 | rescale() changes nothing, or keeps every occupied in-range bin in range, the sum of the bins, a positive range, keys in [0, nrBins), and moves the mean by at most half a new bin width, in all three widening branches and the shrinking one |
| `Histogram.AutoscaleRange` | library/src/data/histogram.cpp:257-293 | rescale() changes the range if and only if the histogram is too narrow, too high, too low or too wide for its content, in terms of underflow, overflow, in-range total and outermost occupied bins; it widens both ends by 5%, lowers the minimum by 20% and keeps the maximum, raises the maximum by 20% and keeps the minimum, or shrinks to 80% centred between the outermost occupied bins |
| `Histogram.SingleBinMean` | library/src/data/histogram.cpp:134-145 | the mean of content in one bin is the centre of that bin |
| `Histogram.RescaleFits` | library/src/data/histogram.cpp:217-250 | the same preservation for rescale(center, width), whenever the new window takes every occupied bin |
| `Histogram.SpreadFits` | library/src/data/histogram.cpp:236-249 | the invariant of the redistribution loop that both rest on |
| `Histogram.WiderFits` | library/src/data/histogram.cpp:278-286 | a window that covers the previous one takes every bin |
| `Histogram.ShrunkFits` | library/src/data/histogram.cpp:287-291 | shrinking to 80% around less than 5% of the bins still takes all of them |
| `Histogram.RescaleEntries` | library/src/data/histogram.cpp:217-250 | rescale(center, width) keeps exactly the content of the occupied bins, wherever they land, and drops the previous under/overflow |
| `Histogram.BinRoundTrip` | library/src/data/histogram.cpp:202-215 | value2Bin(bin2Value(b)) = b for every bin number |
| `Histogram.BinMonotone` | library/src/data/histogram.cpp:202-207 | value2Bin is monotone |
| `Histogram.BinError` | library/src/data/histogram.cpp:202-215 | booking a value moves it by at most half a bin width |
| `Histogram.FillEnds` | library/src/data/histogram.cpp:96-112 | the recursion of fill ends if and only if it does not start or the range is positive and there is a bin; then one re-entry is enough, otherwise every re-entry asks for another |
| `Histogram.ReentryEnds` | library/src/data/histogram.cpp:96-112 | a re-entry of fill asks for another one if and only if the range is not positive or there is no bin |
| `Histogram.ReentersForever` | library/src/data/histogram.cpp:96-112 | in that case the re-entries never stop, however many there were |
| `Histogram.FillEntries` | library/src/data/histogram.cpp:96-112 | what a fill adds to getEntries, for every histogram on which it ends |
| `Histogram.FillExact` | library/src/data/histogram.cpp:96-112 | a fill raises getEntries by exactly its weight if and only if it does not re-enter on content that rescaling drops; empty histograms and those with entries of at least 1e-6 qualify |
| `Histogram.FillLosesUnderflow` | library/src/data/histogram.cpp:96-105 | the concrete case: with 1e-7 in the underflow, the next fill outside the range drops it |
| `Histogram.LowestIsLowest` | library/src/data/histogram.cpp:68-80 | no occupied bin lies below the one found |
| `Histogram.HighestIsHighest` | library/src/data/histogram.cpp:82-94 | no occupied bin lies above the one found |
| `Histogram.Histogram.constructor` | library/src/data/histogram.cpp:9-12 | an empty histogram with any number of bins and any range; its keys are in range |
| `Histogram.Histogram.GetEntries` | library/src/data/histogram.cpp:194-200 | the accumulation loop computes the sum over all bins plus under/overflow |
| `Histogram.Histogram.GetMean` | library/src/data/histogram.cpp:134-145 | the accumulation loop computes the content-weighted mean of the bin centres, 0 without positive content |
| `Histogram.Histogram.GetLowestOccupiedBin` | library/src/data/histogram.cpp:68-80 | the search finds the lowest occupied bin, -1 without one |
| `Histogram.Histogram.GetHighestOccupiedBin` | library/src/data/histogram.cpp:82-94 | the search finds the highest occupied bin, -1 without one |
| `Histogram.Histogram.Book` | library/src/data/histogram.cpp:106-111 | adds the weight to underflow, overflow or one bin, and to nothing else |
| `Histogram.Histogram.RescaleWindow` | library/src/data/histogram.cpp:217-250 | the in-place redistribution is the one the preservation lemmas are about |
| `Histogram.Histogram.AddValue` | library/src/data/histogram.cpp:96-112 | fill, for every histogram and value on which its recursion ends |
| `Histogram.Histogram.Rescale` | library/src/data/histogram.cpp:257-293 | rescale() takes the branch the preservation lemma covers |
| `RateBuffer.WindowRefinesHistory` | daemon/src/utility/gpio_ratebuffer.cpp:26-54 | for any order of events the accepted ones are non-decreasing and at least the deadtime apart, and the deque is exactly those within the window of the latest one |
| `RateBuffer.WindowedRateExact` | daemon/src/utility/gpio_ratebuffer.cpp:62-83 | from the latest accepted event on, the rate of the deque equals the rate over the whole unbounded accepted history |
| `RateBuffer.RecentTwice` | daemon/src/utility/gpio_ratebuffer.cpp:48-54 | forgetting what is too old now loses nothing for any later time |
| `RateBuffer.RecentMembers` | daemon/src/utility/gpio_ratebuffer.cpp:48-54 | what is kept of a history is exactly what is no older than the window |
| `RateBuffer.RateIsCountOverSpan` | daemon/src/utility/gpio_ratebuffer.cpp:72-82 | the rate of events within the window, times the seconds they span, is their number |
| `RateBuffer.CoincidenceExact` | daemon/src/utility/gpio_ratebuffer.cpp:129-135 | because of the truncation to microseconds, two events coincide if and only if they are less than 51 microseconds apart |
| `RateBuffer.DeadtimeFilter.Accept` | daemon/src/utility/gpio_ratebuffer.cpp:26-39 | accepts if and only if nothing was accepted yet or the deadtime has passed, and remembers only accepted timestamps |
| `RateBuffer.SlidingRateEstimator.Add` | daemon/src/utility/gpio_ratebuffer.cpp:48-54 | popping from the front keeps exactly the events within the window of the new one |
| `RateBuffer.SlidingRateEstimator.CurrentRateHz` | daemon/src/utility/gpio_ratebuffer.cpp:62-83 | the iterator loop computes the rate over the events still in the window |
| `RateBuffer.EventRateBuffer.constructor` | daemon/src/utility/gpio_ratebuffer.cpp:105-112 | an empty history |
| `RateBuffer.EventRateBuffer.Handle` | daemon/src/utility/gpio_ratebuffer.cpp:114-166 | accepts exactly the events on the selected edge that are no marker, lie within 51 microseconds of one (or not, for a veto) and come at least the deadtime after the last accepted one; extends the history by them; reports the distance to the previous accepted event unless it is zero; counts rejections by cause |
| `RateBuffer.EventRateBuffer.Rate` | daemon/src/utility/gpio_ratebuffer.cpp:62-83 | the estimate after any calls equals the rate computed from everything ever accepted |
| `Kalman.RecursionIsBatch` | daemon/src/utility/kalman_gnss_filter.cpp:25-57 | without elapsed time the state is the inverse-variance-weighted mean of all measurements since reset, and 1/variance the sum of 1/accuracy^2 |
| `Kalman.HullAndVariance` | daemon/src/utility/kalman_gnss_filter.cpp:25-57 | for any elapsed times the estimate stays in the hull of the measurements, the variance is positive and at most the last clamped accuracy^2 |
| `Kalman.UpdateFacts` | daemon/src/utility/kalman_gnss_filter.cpp:49-55 | the gain lies strictly between 0 and 1, the posterior variance is below both inputs, and precisions add |
| `Kalman.StepWeighted` | daemon/src/utility/kalman_gnss_filter.cpp:34-55 | one step, whatever time has passed, weights prediction and measurement by their inverse variances, the prediction including the drift, and these precisions add |
| `Kalman.FirstFixTaken` | daemon/src/utility/kalman_gnss_filter.cpp:27-32 | the first measurement is taken over as it is, at its time and with its clamped accuracy |
| `Kalman.PredictionDrifts` | daemon/src/utility/kalman_gnss_filter.cpp:36-44 | elapsed whole milliseconds add exactly their drift to the variance and nothing to the position |
| `Kalman.DriftRate` | daemon/src/utility/kalman_gnss_filter.cpp:41 | the drift is linear in time and amounts to the square of the decay per second |
| `Kalman.GainOptimal` | daemon/src/utility/kalman_gnss_filter.cpp:49-55 | no other linear blend of prediction and measurement has a smaller variance |
| `Kalman.KalmanGnssFilter.constructor` | daemon/src/utility/kalman_gnss_filter.cpp:8-10 | an uninitialised filter |
| `Kalman.KalmanGnssFilter.Reset` | daemon/src/utility/kalman_gnss_filter.cpp:20-23 | returns to the uninitialised state, keeping the time stamp |
| `Kalman.KalmanGnssFilter.SetState` | daemon/src/utility/kalman_gnss_filter.cpp:12-18 | takes over the measurement with its squared accuracy |
| `Kalman.KalmanGnssFilter.AddFix` | daemon/src/utility/kalman_gnss_filter.cpp:25-57 | process(), with the elapsed milliseconds in its 32-bit counter, is the step both lemmas about runs are about |
| `Geohash.HashCell` | daemon/src/utility/geohash.cpp:11-61 | for every in-range coordinate, decoding the hash gives a cell that contains the point and measures 360/2^ceil(5p/2) by 180/2^floor(5p/2) degrees; every letter is in the alphabet |
| `Geohash.DecodeHash` | daemon/src/utility/geohash.cpp:52-57 | decoding the letters gives back the bits of the bisection |
| `Geohash.PointInCell` | daemon/src/utility/geohash.cpp:28-49 | the point lies in the cell after any number of bisections |
| `Geohash.CellSize` | daemon/src/utility/geohash.cpp:28-49 | the cell of any bit string has the size its length promises |
| `Geohash.CellUnique` | daemon/src/utility/geohash.cpp:28-49 | a bit string whose cell holds the point is the bit string of the point: cells of one depth do not overlap |
| `Geohash.SameHashSameCell` | daemon/src/utility/geohash.cpp:11-61 | two points share a hash if and only if the second lies in the cell of the first |
| `Geohash.HashPrefix` | daemon/src/utility/geohash.cpp:11-61 | the hash at a precision is a prefix of the hash at any larger one |
| `Geohash.HashFromCoordinates` | daemon/src/utility/geohash.cpp:11-61 | the loop computes that hash, clamps the precision to 12, and returns the empty string off the globe |
| `AdcTrace.TraceContents` | daemon/src/drivers/ads1115_driver.cpp:118-152 | exactly when the 40th sample since the latest trigger arrives in trace mode, a trace is published; it is the last min(50, n) samples since the mode was set, its last 40 are the samples since the trigger, and at most 10 precede them |
| `AdcTrace.RunIsTracked` | daemon/src/drivers/ads1115_driver.cpp:57-69 | in every run the index is -1 or the number of amplitude samples since the latest trigger, and the deque the last samples since the mode was set |
| `AdcTrace.TracesWithinTriggers` | daemon/src/drivers/ads1115_driver.cpp:57-69 | traces never outnumber triggers |
| `AdcTrace.SamplesPublished` | daemon/src/drivers/ads1115_driver.cpp:113-149 | a sample is published if and only if it is from another channel, or in peak mode, or in trace mode the first since the latest trigger; nothing but a sample publishes |
| `AdcTrace.ModeAndSignal` | daemon/src/drivers/ads1115_driver.cpp:229-247 | in every run the mode is the one last set by a valid code (0, 1, 2), at first peak mode, and the trigger signal the one last selected |
| `AdcTrace.ADS1115Driver.constructor` | daemon/src/drivers/ads1115_driver.h:56-58 | the driver from which the runs start: peak mode, not armed, nothing buffered |
| `AdcTrace.ADS1115Driver.SetAdcSamplingMode` | daemon/src/drivers/ads1115_driver.cpp:229-247 | sets the mode and clears index and buffer, or ignores an unknown code |
| `AdcTrace.ADS1115Driver.OnEventTrigger` | daemon/src/drivers/ads1115_driver.cpp:50-56 | changes the trigger signal and nothing else |
| `AdcTrace.ADS1115Driver.OnGpio` | daemon/src/drivers/ads1115_driver.cpp:57-69 | arms the trace exactly on the trigger signal |
| `AdcTrace.ADS1115Driver.OnSampleReady` | daemon/src/drivers/ads1115_driver.cpp:92-153 | changes state and publishes as the step the run lemmas are about |
| `LogEngine.OncePublished` | daemon/src/components/logengine.cpp:118-130 | a name only ever sent as LOG_ONCE is published if and only if it has arrived and this is the first update after its first arrival or a once-trigger is pending, always with its last value |
| `LogEngine.AveragePublished` | daemon/src/components/logengine.cpp:82-117 | LOG_AVERAGE publishes the mean of exactly the values since the previous update, if and only if there are some and all parse, and forgets them |
| `LogEngine.AverageMeaning` | daemon/src/components/logengine.cpp:82-117 | the mean appears if and only if values arrived and all start with a number; it lies between any bounds on these numbers, is half their sum when there are two, and carries the text after the last blank of the newest value |
| `LogEngine.TotalOne` | daemon/src/components/logengine.cpp:95-101 | the total of one value is the number it starts with |
| `LogEngine.TotalAppend` | daemon/src/components/logengine.cpp:95-106 | totals add up, and a failing part makes the whole fail |
| `LogEngine.TotalExists` | daemon/src/components/logengine.cpp:95-106 | the total exists if and only if every value starts with a number |
| `LogEngine.FirstTokenIs` | daemon/src/components/logengine.cpp:90-93 | the first token is the text before the first blank |
| `LogEngine.LastTokenIs` | daemon/src/components/logengine.cpp:16-21 | the last token is the text after the last blank |
| `LogEngine.PublishedOnArrival` | daemon/src/components/logengine.cpp:29-50 | exactly the LOG_EVERY values are published on arrival; neither they nor LOG_NEVER values make a name known, and no other name is touched |
| `LogEngine.EveryReplaces` | daemon/src/components/logengine.cpp:40-48 | a LOG_EVERY value under a known name replaces what was stored without being published again, becomes the LOG_ON_CHANGE reference, is what LOG_LATEST publishes, and counts in a mean |
| `LogEngine.LatestPublished` | daemon/src/components/logengine.cpp:76-81 | LOG_LATEST publishes the last value since the previous update, and forgets it |
| `LogEngine.OnChangePublished` | daemon/src/components/logengine.cpp:131-167 | a name only ever sent as LOG_ON_CHANGE: a forced update publishes the newest stored value, any other the first value since the last update that differs from the reference, if there is one; the reference is a function of the history |
| `LogEngine.OnChangeHistory` | daemon/src/components/logengine.cpp:131-167 | in every run what is stored under such a name is that reference and what arrived since the last update |
| `LogEngine.OnChangeReference` | daemon/src/components/logengine.cpp:131-167 | an update leaves one LOG_ON_CHANGE entry, the reference; it publishes if and only if it is forced or some value differs from the reference; an unforced line is the new reference, while a forced one is the last value and equals the reference kept if and only if last and first value agree |
| `LogEngine.RunWellFormed` | daemon/src/components/logengine.cpp:60-172 | in every run no stored list is empty, and after an update none has more than two entries |
| `LogEngine.ReceiveKeeps` | daemon/src/components/logengine.cpp:29-58 | receiving keeps the stored lists well formed |
| `LogEngine.UpdateKeeps` | daemon/src/components/logengine.cpp:60-172 | updating keeps them well formed and short |
| `LogEngine.LogEngine.constructor` | daemon/src/components/logengine.h:25 | starts empty with the once-flag set |
| `LogEngine.LogEngine.OnOnceLogTrigger` | daemon/src/components/logengine.h:21 | sets the once-flag |
| `LogEngine.LogEngine.OnLogParameterReceived` | daemon/src/components/logengine.cpp:29-58 | stores, resets or publishes at once, as the receive step of the runs |
| `LogEngine.LogEngine.SumOf` | daemon/src/components/logengine.cpp:95-106 | the summing loop gives the total, or nothing if one value does not parse |
| `LogEngine.LogEngine.ProcessOnce` | daemon/src/components/logengine.cpp:118-130 | the line and the list the LOG_ONCE branch leaves |
| `LogEngine.LogEngine.ProcessOnChange` | daemon/src/components/logengine.cpp:131-167 | the line and the list the LOG_ON_CHANGE branch leaves: the first differing entry decides |
| `LogEngine.LogEngine.ProcessEntry` | daemon/src/components/logengine.cpp:71-169 | one turn of the update loop |
| `LogEngine.LogEngine.DoUpdate` | daemon/src/components/logengine.cpp:60-172 | in whatever order the map is visited, the erase-while-iterating loop is the update step of the runs |
| `Sessions.AlwaysAgree` | daemon/src/network/tcpserver.cpp:24-94 | at every handler boundary of every run the connections in the sink are exactly those of the sessions, each once |
| `Sessions.AfterHeartbeat` | daemon/src/network/tcpserver.cpp:36-69 | right after a heartbeat both tables hold only open, recently heard connections, and a session survives if and only if it was healthy |
| `Sessions.HeartbeatKeeps` | daemon/src/network/tcpserver.cpp:42-61 | from the events alone: a heartbeat keeps exactly the sessions whose socket was not closed since it was accepted and that were accepted or heard of at most maxIdle ago, and counts the heartbeat |
| `Sessions.ConnHistory` | daemon/src/network/tcpserver.cpp:71-82 | in every run a connection is known, open, and last heard of as the events say |
| `Sessions.AcceptServes` | daemon/src/network/tcpserver.cpp:71-82 | a new connection gets a session of its own under a fresh id and joins the sink, and nobody else is affected |
| `Sessions.BeatAgrees` | daemon/src/network/tcpserver.cpp:42-67 | the heartbeat keeps the tables in agreement |
| `Sessions.IdsNeverReused` | daemon/src/network/tcpserver.cpp:71-82 | an id that has been given up never comes back |
| `Sessions.RepeatedDisconnect` | library/src/network/tcpconnection.cpp:80-89 | after a disconnect callback every later one for the same connection changes nothing, whatever handlers ran in between |
| `Sessions.TcpSink.AddConnection` | daemon/src/sinks/tcp_sink.cpp:14-17 | appends the connection |
| `Sessions.WithoutKeeps` | daemon/src/sinks/tcp_sink.cpp:19-31 | the erasing all sink operations share keeps the order of what stays and every copy of it, and leaves nothing of the rest |
| `Sessions.TcpSink.Erase` | daemon/src/sinks/tcp_sink.cpp:21-22 | the remove/erase loop: what stays is a subsequence of what was there, with all its copies |
| `Sessions.TcpSink.RemoveConnection` | daemon/src/sinks/tcp_sink.cpp:19-23 | the connection no longer occurs; all others stay, in order, as often as before |
| `Sessions.TcpSink.PruneDisconnected` | daemon/src/sinks/tcp_sink.cpp:25-31 | no closed connection is left; all others stay, in order, as often as before |
| `Sessions.TcpServer.constructor` | daemon/src/network/tcpserver.h:44-46 | no sessions and an empty sink |
| `Sessions.TcpServer.AddConnectionHandler` | daemon/src/network/tcpserver.cpp:20-22 | appends the handler |
| `Sessions.TcpServer.OnAccept` | daemon/src/network/tcpserver.cpp:71-90 | is the accept step of the runs, calls every registered handler in order, and publishes the new session count if there is a bus |
| `Sessions.TcpServer.DropSession` | daemon/src/network/tcpserver.cpp:24-34 | removes the session and its connection from both tables, or does nothing for an unknown id |
| `Sessions.TcpServer.OnFailed` | library/src/network/tcpconnection.cpp:80-89 | is the disconnect step: close, and drop the session |
| `Sessions.TcpServer.VisitSessions` | daemon/src/network/tcpserver.cpp:42-61 | whatever the iteration order, the erase-while-iterating loop leaves exactly the healthy sessions, pings exactly those, and stops exactly the connections of the others |
| `Sessions.TcpServer.HeartbeatAndCleanup` | daemon/src/network/tcpserver.cpp:36-69 | is the heartbeat step, keeps the tables in agreement, and publishes the session count exactly when something was removed and there is a bus |
| `Framebuffer.PutPaints` | daemon/src/hardware/i2c/adafruit_ssd1306.cpp:131-163 | one drawPixel changes that pixel if it is on the screen and no other, read back as a grid under any rotation |
| `Framebuffer.IndexInRange` | daemon/src/hardware/i2c/adafruit_ssd1306.cpp:156 | the byte of every on-screen pixel lies inside the buffer, under any rotation |
| `Framebuffer.BitsDistinct` | daemon/src/hardware/i2c/adafruit_ssd1306.cpp:137-162 | different pixels occupy different bits |
| `Framebuffer.QuarterTurn` | daemon/src/hardware/i2c/adafruit_ssd1306.cpp:137-153 | each rotation shows the previous one turned by a quarter, and rotation 0 is the native picture |
| `Framebuffer.PageLayout` | daemon/src/hardware/i2c/adafruit_ssd1306.cpp:155-162 | byte `col` of page `page` holds eight rows of its column, topmost in the lowest bit |
| `Framebuffer.PaintedAppend` | daemon/src/hardware/i2c/adafruit_ssd1306.cpp:131-163 | painting one list of pixels and then another paints the concatenation |
| `Framebuffer.PutBitExact` | daemon/src/hardware/i2c/adafruit_ssd1306.cpp:158-162 | setting or clearing one bit of a byte leaves the other seven |
| `Framebuffer.Display.constructor` | daemon/src/hardware/i2c/adafruit_ssd1306.cpp:166-217 | every supported panel type gets a buffer with one bit for each pixel |
| `Framebuffer.Display.SetRotation` | daemon/src/hardware/i2c/Adafruit_GFX.cpp:492-508 | reduces the rotation modulo 4 and keeps the display valid |
| `Framebuffer.Display.DrawPixel` | daemon/src/hardware/i2c/adafruit_ssd1306.cpp:131-163 | the buffer changes at that pixel only, and off-screen not at all |
| `Raster.CircleStep` | daemon/src/hardware/i2c/Adafruit_GFX.cpp:84-93 | the loop keeps f = (x+1)^2 + y^2 - y - r^2, and the new offset satisfies abs(x^2 + y^2 - r^2) <= y |
| `Raster.OctantAccurate` | daemon/src/hardware/i2c/Adafruit_GFX.cpp:84-103 | for every radius the loop ends, walks x by one, lowers y by at most one, and every plotted offset satisfies abs(x^2 + y^2 - r^2) <= y |
| `Raster.CircleAccurate` | daemon/src/hardware/i2c/Adafruit_GFX.cpp:72-104 | every pixel of the circle satisfies that bound in its larger offset |
| `Raster.CircleSymmetric` | daemon/src/hardware/i2c/Adafruit_GFX.cpp:95-102 | the circle is symmetric under all eight reflections |
| `Raster.CircleComplete` | daemon/src/hardware/i2c/Adafruit_GFX.cpp:72-104 | the circle has no gap: for every radius there is a pixel in every column and every row at most r from the centre |
| `Raster.CircleHasOctants` | daemon/src/hardware/i2c/Adafruit_GFX.cpp:79-102 | the poles and all eight reflections of every offset of the octant are in the circle |
| `Raster.OctantCovers` | daemon/src/hardware/i2c/Adafruit_GFX.cpp:84-103 | every distance from 1 to r occurs as a coordinate of an offset of the octant |
| `Raster.CornerComplete` | daemon/src/hardware/i2c/Adafruit_GFX.cpp:106-141 | each selected corner has a pixel in every column and row of its quarter from 1 to r |
| `Raster.CornersOfReflections` | daemon/src/hardware/i2c/Adafruit_GFX.cpp:124-139 | the four corners together are the eight reflections, and each corner stays in its quadrant |
| `Raster.LineAccurate` | daemon/src/hardware/i2c/Adafruit_GFX.cpp:181-220 | every pixel of the list that drawLine paints is within half a pixel of the true line, and between the end points |
| `Raster.LineComplete` | daemon/src/hardware/i2c/Adafruit_GFX.cpp:181-220 | that list has max(abs dx, abs dy)+1 pixels, all different, both end points among them |
| `Raster.LineNearest` | daemon/src/hardware/i2c/Adafruit_GFX.cpp:181-220 | the i-th pixel of the line is within half a pixel of the true line, and the pixels advance by one along the longer axis |
| `Raster.LineEnds` | daemon/src/hardware/i2c/Adafruit_GFX.cpp:181-220 | both end points are plotted, as the first and the last of max(abs dx, abs dy)+1 pixels |
| `Raster.ClimbNearest` | daemon/src/hardware/i2c/Adafruit_GFX.cpp:207-219 | the error term makes the climb the nearest integer to the true height |
| `Raster.Gfx.DrawLine` | daemon/src/hardware/i2c/Adafruit_GFX.cpp:181-220 | the frame buffer changes exactly at the on-screen pixels of that line |
| `Raster.Gfx.DrawCircle` | daemon/src/hardware/i2c/Adafruit_GFX.cpp:72-104 | the frame buffer changes exactly at the on-screen pixels of that circle |
| `Raster.Gfx.DrawCircleHelper` | daemon/src/hardware/i2c/Adafruit_GFX.cpp:106-141 | the frame buffer changes exactly at the selected corners of the octant |
| `Raster.Gfx.Plot` | daemon/src/hardware/i2c/Adafruit_GFX.cpp:79 | one drawPixel extends the painted pixels by that pixel |
| `Raster.Gfx.PlotPoles` | daemon/src/hardware/i2c/Adafruit_GFX.cpp:79-82 | the four poles |
| `Raster.Gfx.PlotEight` | daemon/src/hardware/i2c/Adafruit_GFX.cpp:95-102 | the eight reflections of an offset |
| `Raster.Gfx.PlotTransposed` | daemon/src/hardware/i2c/Adafruit_GFX.cpp:208-212 | the pixel of one column, transposed on steep lines |
| `Raster.Gfx.PlotPair` | daemon/src/hardware/i2c/Adafruit_GFX.cpp:124-127 | the two reflections of a corner, if it is selected |
| `Raster.Gfx.PlotCorners` | daemon/src/hardware/i2c/Adafruit_GFX.cpp:124-139 | the two reflections of every selected corner |
| `Credentials.FileRoundTrip` | credentials_utility/muondetector-login.cpp:115-208 | for every user, password and file without a shadowing line: get after store returns both, get after clear finds nothing, and clear after store leaves the other lines and one empty line |
| `Credentials.StoreExact` | credentials_utility/muondetector-login.cpp:164-188 | stored credentials come back for every user and password if and only if no line of the file is kept by the filter yet matched by the reader |
| `Credentials.ShadowIff` | credentials_utility/muondetector-login.cpp:35-41 | a line is kept by the filter yet matched by the reader if and only if it is an assignment indented with white space other than spaces and tabs |
| `Credentials.VerticalTabShadows` | credentials_utility/muondetector-login.cpp:129-133 | the concrete case: an assignment after a vertical tab survives store and clear and hides the stored user |
| `Credentials.StoreAndClear` | credentials_utility/muondetector-login.cpp:164-208 | unless a line shadows, storing is exact and clearing leaves nothing to read |
| `Credentials.PlainIsUnshadowed` | credentials_utility/muondetector-login.cpp:35-41 | no line shadows in a file indented with spaces and tabs only |
| `Credentials.LostLines` | credentials_utility/muondetector-login.cpp:129-133 | the lines lost to the filter although they assign neither credential are the banner and those that start with a key but do not go on as an assignment |
| `Credentials.MatchedForm` | credentials_utility/muondetector-login.cpp:102-113 | on a line that starts with the key the reader decides by what follows it |
| `Credentials.SimilarNameLost` | credentials_utility/muondetector-login.cpp:129-133 | the concrete case: `mqtt_users = 5` is no credential for the reader, yet removed |
| `Credentials.StoreThenParse` | credentials_utility/muondetector-login.cpp:164-188 | reading after storing gives the stored value unless a kept line matches first, then the value of that line |
| `Credentials.StoreKeepsAndReplaces` | credentials_utility/muondetector-login.cpp:174-185 | the other lines keep content and order, and the credential lines are exactly one new block |
| `Credentials.RepeatedStore` | credentials_utility/muondetector-login.cpp:174-185 | any number of stores leaves one assignment per key, that of the last; each also leaves one more empty line |
| `Credentials.RewrittenFileReads` | credentials_utility/muondetector-login.cpp:115-160 | no user or password can break out of its line: the rewritten file reads back as the lines written |
| `Credentials.WrittenLinesRead` | credentials_utility/muondetector-login.cpp:122-124 | reading back lines that hold no newline gives those lines |
| `Credentials.LinesAreLines` | credentials_utility/muondetector-login.cpp:115-127 | writing back the lines of a file gives the file, up to a missing final newline |
| `Credentials.ParseConfigString` | credentials_utility/muondetector-login.cpp:102-113 | the loop finds the first matching line and unescapes its value |
| `Credentials.Retain` | credentials_utility/muondetector-login.cpp:174-180 | the filter loop keeps the other lines in order |
| `Credentials.ReadConfigLines` | credentials_utility/muondetector-login.cpp:115-127 | the getline loop finds the lines of the file |
| `Credentials.WriteConfigLines` | credentials_utility/muondetector-login.cpp:145-147 | each line followed by a newline |
| `Credentials.StoreCredentialsInConfig` | credentials_utility/muondetector-login.cpp:164-188 | from old contents to new: other lines kept, one block written |
| `Credentials.ClearCredentialsFromConfig` | credentials_utility/muondetector-login.cpp:190-208 | from old contents to new: other lines kept, no credential line left |
| `ConfigText.UnescapeEscape` | credentials_utility/muondetector-login.cpp:43-100 | unescaping an escaped string gives it back, for all strings |
| `ConfigText.MatchIff` | credentials_utility/muondetector-login.cpp:104-105 | the backtracking matcher accepts a line if and only if the pattern, read as a grammar, does, and captures a value some reading of the line has |
| `ConfigText.TailIff` | credentials_utility/muondetector-login.cpp:104-105 | what may follow the closing quote is exactly: blanks, perhaps a semicolon, blanks, perhaps a comment |
| `ConfigText.EscapeTable` | credentials_utility/muondetector-login.cpp:47-65 | the escapes by name |
| `ConfigText.UnescapeTable` | credentials_utility/muondetector-login.cpp:75-97 | a backslash before any other character denotes that character, and at the end nothing |
| `ConfigText.AssignmentCaptured` | credentials_utility/muondetector-login.cpp:104-108 | on a written assignment the pattern captures exactly the escaped value, whatever the value contains |
| `ConfigText.ConfigEscape` | credentials_utility/muondetector-login.cpp:43-69 | the loop computes the escaped string, which unescapes to its input |
| `ConfigText.ConfigUnescape` | credentials_utility/muondetector-login.cpp:71-100 | the loop with its flag reads backslash pairs as the recursive definition does |

## Left out

- IEEE rounding: histogram, rate, filter and averages are over real numbers, where the half of `lround` goes away from
  zero. Geohash midpoints are dyadic with few bits, so there the reals are what doubles compute.
- 16-bit wrap in the drawing code: coordinates are unbounded integers. For panels of at most 128 by 96 pixels this makes
  no difference as long as end points and radii stay within about 10000.
- Data races in the memory model, exceptions thrown by handlers, and allocation failure. Where the scheduler reads a
  flag or the cancelled set without the lock, that read is a step of its own that sees the current value.
- Operating-system errors other than a failed write or read: failing accepts, unreadable or unwritable files, permission
  and group changes on the written file.
- Wrap-around of session and timer ids.
- Time stamps and number formatting of log lines (the mean is kept as a number), and log types outside the six kinds.
- `RateHistory`, `sampleAndRetrieve` and `EventRateBuffer::clear`; runs are without a call of clear.
- Burst sampling, the timer that samples in trace mode and the handling of other channels beyond passing them on.
- Median, most probable value, RMS and the serialisation of histograms.
- Filled shapes, text and bitmaps on the display, and the commands that send the buffer to the panel.
- Cap'n Proto codecs, MQTT and file sinks, network discovery, configuration of the daemon, device drivers, and all user
  interface code: wiring and input/output over libraries that are not part of this model.
- Limits of the regular-expression library on very long lines, and character sets other than the C locale's.
- The password prompt and the MQTT login test that precede storing credentials.
- Delivery.EndToEnd: assumes no socket error; with one, `TcpConnection.OnWritten` and `TcpConnection.OnRead` say what
  each end does.
- ThreadPool.AllWorkersExit: that the operating system gives every thread its turns is outside the model.
- Histogram.Histogram.GetMean: not for a single bin, where the source divides zero by zero to find a bin centre.
- Histogram.Histogram.Rescale: not for a single bin, for the same reason.
- Scheduler.QueueStaysDrained: a client that has drawn an id before stop and pushes after it leaves that entry in the
  queue, where it stays until a new start.
