# A verified model of the coroutine framework and the libraries it carries

The repository is a C++ coroutine framework: worker threads resume coroutines from a shared queue,
a timing wheel wakes sleepers, and a net service runs remote calls over a type-directed wire
format. It carries spdlog, whose asynchronous log pipeline is modelled here, and fmt, two of whose
exact-arithmetic routines are.

The concurrent parts are step systems: each read or store of an atomic, each critical section and
each commit to the scheduler is one step, the clock may advance between any two steps, and the
steps of all threads interleave freely. Main results are about every run of such a system. The
classes `TimeService`, `NetService`, `CoroScheduler`, `CoroutineQueue`, `MpmcBlockingQueue` and
`CircularQ` are the imperative form of the same code. Their methods are proved to take exactly
steps of the system, with any number of steps of other threads in between, or to compute the
specification function of their data structure.

| file | what it models |
|---|---|
| CoroutineQueue.dfy | the intrusive queue: links, `fetch_nodes`, and when the tail goes stale |
| TimeWheel.dfy, TimeService.dfy | the timing wheel as a step system, and its methods |
| WheelTiming.dfy, WheelPunctual.dfy, WheelPrompt.dfy, WheelConservation.dfy, WheelLoss.dfy | never early, bounded wake-up, exactly who is woken at the planned visit, how late at most; conservation; exactly when frames can be lost |
| RpcCall.dfy | one remote call: answers, quorum, timeout, results |
| NetService.dfy, NetGuarantees.dfy, NetResults.dfy, NetForeign.dfy | the table of waiting callers, responses against timers, and its methods; what callers find in their results; exactly when a call can be ended by something that was not made for it |
| Framework.dfy, FrameworkInvariant.dfy, Ownership.dfy, Shutdown.dfy, Scheduler.dfy | scheduler, wheel and table together: single ownership; what the stop leaves behind; the worker methods |
| Serialization.dfy, WireFormat.dfy, Serializer.dfy, Framing.dfy | the wire format, the buffer routines, the package header, both senders, the receiving loops and the dispatch |
| CircularQ.dfy, MpmcQueue.dfy, ThreadPool.dfy | spdlog's ring buffer, queue and thread pool |
| TrailingZeros.dfy, IsoWeek.dfy, Arith.dfy | fmt's trailing-zero removal and ISO 8601 week dates |

## Where the code falls short of what it promises

Each of these is proved as an exact condition, or by a run or input that shows it.

* `fetch_nodes` (queue.ipp:50-71) corrects `tail_` only when the queue becomes empty. If it takes
  the last node and leaves another, the next frame appended to that queue is lost
  (`FetchStaysAttachedIff`, `LostForGood`). In a run of the wheel all tails stay right if and only if
  no scan does that (`TailsStayRightIff`), which no scan of a queue can do if and only if its last
  frame wakes no earlier than the others (`SafeQueueIff`); otherwise it happens
  (`OutOfOrderLosesFrame`).
* The wheel's loop visits bucket 1 right after it starts, without waiting. Every run is punctual for
  a frame if and only if the frame is not due at that visit or its wake time has come when the loop
  starts (`PunctualIff`); a frame that is missed waits for a revolution (`FirstVisitIsTooEarly`).
* A remote caller in the table waits for ever if and only if the net service is stopped
  (`StrandedIff`); then `running_coro_cnt_` stays above zero and no worker ends
  (`StopStrandsCallers`, `CallersCanBeStranded`).
* `commit` of a new coroutine looks at the stop flag before it counts the coroutine. One that has
  passed is never run if and only if every worker has ended meanwhile (`LateCommitIff`,
  `LateCommitHappens`).
* Timers are not cancelled, and timers and responses name only the coroutine. A call can be ended by
  one that was not made for it if and only if the service runs and such a timer or request of
  another call of the coroutine is left over (`EndedByOtherIff`, `LeftOverTimerEndsLaterCall`,
  `LateAnswerEndsLaterCall`).
* The assertion in `timeout_cb` is true if and only if every answer came from a listed endpoint and
  none answered twice (`TimeoutAssertionIff`). What a user's `on_each_result` asks for is
  overwritten by the finish condition (`ProcessBuffer`).
* `receive` ends normally if and only if the process takes the message and the payload has at most 96
  bytes (`MessageArrives`): a request for an unknown function or after the stop fails an assertion,
  and the size is asserted only after the dispatch, while the sender allows 992 bytes
  (`BuildRequest`).
* The mask for the message type (rpc_struct.h:17) is written like a binary literal but is the
  hexadecimal 0x11b; the model uses that value.
* `remove_trailing_zeros(uint64_t&)` cuts its quotient to 32 bits. It is right if and only if the
  argument is no multiple of 10^8 or the quotient is below 2^32 (`RemovalCorrectIff`).
* A discarded log message is counted after the queue's mutex has been released, so the counters are
  short by exactly the discards in between (`Conservation`). A `circular_q` built with the largest
  `size_t` is disabled and swallows items without counting them (`ConservationIff`). The thread
  pool's destructor can finish if and only if the queue has room for at least one message
  (`DestructorFinishesIff`).
* Below year 0 `iso_year_weeks` never finds a year with 53 weeks. The ISO week date is right if and
  only if the date is not in a 53rd week of such a year (`WeekDateCorrectIff`,
  `YearBeforeZeroFails`).

## Model

| member | source | states |
|---|---|---|
| QueueModel.FetchStaysAttachedIff | src/coroutine_framework/queue.ipp:49-71 | `tail_` is right after `fetch_nodes` if and only if every node is taken or the last one is not |
| QueueModel.FetchPartitions | src/coroutine_framework/queue.ipp:49-71 | fetching splits a queue in two: no frame is lost or duplicated by it |
| QueueModel.FetchInOrder | src/coroutine_framework/queue.ipp:49-71 | fetching the nodes of two parts of a queue fetches those of the first, in order, and then those of the second; and likewise for what stays |
| QueueModel.LostForGood | src/coroutine_framework/queue.ipp:37-71 | once a frame is lost, no later append, pop or fetch brings it or any later frame back |
| QueueModel.DetachedTailLosesFrame | src/coroutine_framework/queue.ipp:37-71 | the smallest history that loses a frame |
| CoroutineQueue.CoroutineQueue.AppendToTail | src/coroutine_framework/queue.ipp:37-47 | on the linked nodes: the abstract queue after the call is `Append` of the one before, stale tail included |
| CoroutineQueue.CoroutineQueue.PopFromHead | src/coroutine_framework/queue.ipp:73-85 | on the linked nodes: the first frame is returned, unlinked, and the rest is unchanged |
| CoroutineQueue.CoroutineQueue.FetchNodes | src/coroutine_framework/queue.ipp:49-71 | on the linked nodes: the frames that satisfy the condition move in order to the end of the target, the others stay in order, and the stale tail is exactly as `Fetch` says |
| WheelTiming.ClockworkStep | src/coroutine_framework/time_module/time_service.cpp:70-87 | every step keeps: successive start timestamps are at least 4096 precisions apart, and the loop is never ahead of the time planned for its next visit, the start-up visit excepted |
| WheelTiming.BucketsStep | src/coroutine_framework/time_module/time_service.cpp:54-105 | every step keeps: each waiting frame is in the bucket of its index and wakes after that bucket's last scan |
| WheelTiming.InvStep | src/coroutine_framework/time_module/time_service.cpp:45-111 | every step of any thread keeps the whole timing invariant, and no timestamp, visit count or scan time goes back |
| WheelTiming.StartsFarApart | src/coroutine_framework/time_module/time_service.cpp:70-87 | q revolutions later the start timestamp is at least q times 4096 precisions later |
| WheelTiming.IndexIsCeiling | src/coroutine_framework/time_module/time_service.cpp:52-53 | the computed index is the ceiling: its planned time is the first one not before the wake time |
| WheelTiming.NeverEarly | src/coroutine_framework/time_module/time_service.cpp:45-111 | in every run, a frame is committed at registration or by an ordinary scan only when the clock has reached its wake time |
| WheelTiming.BucketInvariant | src/coroutine_framework/time_module/time_service.cpp:54-105 | in every reachable state, a waiting frame sits in the bucket of its index and wakes after the last scan of it |
| WheelTiming.DueVisitScansAfterWake | src/coroutine_framework/time_module/time_service.cpp:45-105 | the visit a frame is due at scanned its bucket at or after its wake time |
| WheelTiming.Punctual | src/coroutine_framework/time_module/time_service.cpp:45-91 | once visit ceil((wake - start) / precision), counted from the start timestamp the frame read, has happened, no bucket holds the frame and a registration still under way finds itself late; for every frame not due at the very first visit |
| WheelPunctual.PunctualIff | src/coroutine_framework/time_module/time_service.cpp:45-91 | all runs from a start are punctual for a frame if and only if it read a later start timestamp, has no bucket, is not due at visit 1, or its wake time has come when the loop starts |
| WheelPunctual.EachBucketOnce | src/coroutine_framework/time_module/time_service.cpp:70-77 | in every run, 4096 visits in a row contain exactly one scan of each bucket |
| WheelTiming.BoundedWakeup | src/coroutine_framework/time_module/time_service.cpp:70-111 | a frame still waiting when the clock has passed its wake time has left the buckets after the next 4096 visits, however those are timed |
| WheelTiming.FirstVisitIsTooEarly | src/coroutine_framework/time_module/time_service.cpp:70-87 | a frame that the start-up visit leaves in bucket 1 stays there until visit 4097 or the forced scan, and visit 4096 is at least one revolution after the start |
| WheelTiming.FirstVisitMissesFrame | src/coroutine_framework/time_module/time_service.cpp:70-77 | for every frame due at visit 1 that wakes after the start of the loop, a run in which it still waits after that visit |
| WheelConservation.NothingForgotten | src/coroutine_framework/time_module/time_service.cpp:45-111 | in every reachable state each registration is in exactly one place: under way, missed, waiting, fetched, committed or lost |
| WheelConservation.CommittedWhenDue | src/coroutine_framework/time_module/time_service.cpp:45-111 | when the due visit is over, a frame has been committed as often as registered, unless it is still on its way to the lock or the late commit, or lost |
| WheelConservation.CommittedWithinRevolution | src/coroutine_framework/time_module/time_service.cpp:70-111 | a frame that waits past its wake time has been committed as often as registered after the next 4096 visits, unless another registration of it is under way |
| WheelConservation.SweepLeavesNothing | src/coroutine_framework/time_module/time_service.cpp:88-111 | when the loop thread has ended, every frame queued before its bucket's forced scan has been committed exactly as often as registered |
| WheelConservation.CommittedInOrder | src/coroutine_framework/time_module/time_service.cpp:93-111 | the frames of one scan are committed in the order in which they were queued, one at each step of the loop thread, whatever other threads do meanwhile |
| WheelPrompt.NobodyWaitsLong | src/coroutine_framework/time_module/time_service.cpp:70-111 | in every run in which the clock does not pass an enabled step of the loop, a frame due at visit 2 or later is in no bucket any more once its wake time plus one precision, plus the time between the first timestamp and the loop, has come |
| WheelPrompt.CommittedPromptly | src/coroutine_framework/time_module/time_service.cpp:70-111 | in every such run, each commit of a scan is of a frame whose wake time has come, at its due visit or before, less than one precision plus that time after it |
| WheelPrompt.VisitOnTime | src/coroutine_framework/time_module/time_service.cpp:72-87 | from every waiting state of a running loop some run scans the next bucket at exactly start + precision * (idx + 1) |
| WheelLoss.InOrderLosesNothing | src/coroutine_framework/time_module/time_service.cpp:54-111 | if frames join each bucket in the order of their wake times, no run loses one and no tail is ever stale |
| WheelLoss.OutOfOrderLosesFrame | src/coroutine_framework/time_module/time_service.cpp:54-111 | for every precision, a run of the wheel that loses a frame |
| WheelLoss.SafeQueueIff | src/coroutine_framework/time_module/time_service.cpp:93-105 | no scan of a queue, whenever it happens, leaves the tail stale if and only if the last frame wakes no earlier than the others |
| WheelLoss.TailsStayRightIff | src/coroutine_framework/time_module/time_service.cpp:54-111 | in every run, all tails are right in every state if and only if no scan takes the last frame of a queue and leaves an earlier one |
| WheelLoss.CanLoseIff | src/coroutine_framework/time_module/time_service.cpp:54-62 | the next registration can lose its frame if and only if some tail is stale |
| TimeService.TimeService.constructor | src/coroutine_framework/time_module/time_service.h:27-33 | the service starts in an initial state of the step system |
| TimeService.TimeService.LockBucket | src/coroutine_framework/time_module/time_service.cpp:54-62 | the critical section is one step: the whole new state, and a late frame is told so if and only if its bucket was scanned at or after its wake time |
| TimeService.TimeService.RegisterFrame | src/coroutine_framework/time_module/time_service.cpp:45-68 | takes exactly its own steps, read, critical section and late commit, among steps of others; the frame ends as the last commit, or waiting in the bucket of its index behind its last scan, or lost |
| TimeService.TimeService.WakeupFrameOnBucket | src/coroutine_framework/time_module/time_service.cpp:93-111 | takes one scan step, one commit step per frame that was due, and one step on, among steps of others, leaves none uncommitted, and is over at once after the last step |
| TimeService.TimeService.NextBucket | src/coroutine_framework/time_module/time_service.cpp:73-76 | one step to the next bucket and, at bucket 0, a separate store of the timestamp read before, among steps of others |
| TimeService.TimeService.Round | src/coroutine_framework/time_module/time_service.cpp:72-87 | one round of the loop, the `continue` path included, is nothing but steps of the loop thread among steps of others, makes one visit, and unless stopped ends neither before start + precision * (idx + 1) nor later than `slack` after that or after the visit |
| TimeService.TimeService.Pause | src/coroutine_framework/time_module/time_service.cpp:79-86 | nothing happens if the next bucket's time has come; otherwise the wait ends when it comes, at most `slack` later, or at the stop |
| TimeService.TimeService.FinalSweep | src/coroutine_framework/time_module/time_service.cpp:88-90 | the forced scans run as steps of the system, in order, to the end |
| TimeService.TimeService.RunLoop | src/coroutine_framework/time_module/time_service.cpp:70-91 | the loop thread as a whole runs as steps of the system, makes one visit a round until it is stopped, and has swept every bucket when it returns as ended |
| RpcCall.RpcBase.ProcessBuffer | src/coroutine_framework/async_action/async_action.ipp:86-122 | the call after the answer is `Respond` of the call before; the caller is woken if and only if the finish condition holds, whatever the user's function asked for |
| RpcCall.RpcBase.TimeoutCallback | src/coroutine_framework/async_action/async_action.ipp:124-132 | one timeout result per unanswered endpoint, in order, behind the answers |
| RpcCall.FlagsTellWhoAnswered | src/coroutine_framework/async_action/async_action.ipp:86-104 | after any answers, an endpoint's flag is set if and only if it answered and is the first entry of that endpoint |
| RpcCall.TimeoutAssertionIff | src/coroutine_framework/async_action/async_action.ipp:124-132 | the assertion of `timeout_cb` is true if and only if all answers came from listed endpoints and none answered twice |
| RpcCall.WhenAllHeardAllIff | src/coroutine_framework/async_action/async_action.ipp:98-112 | a finished call that waits for all has heard every endpoint if and only if no answer was a repetition or a stranger's |
| RpcCall.WokenByQuorum | src/coroutine_framework/async_action/async_action.ipp:105-121 | over any sequence of answers, the caller is woken exactly at answer number 1, total, or the smallest number that is more than half of total |
| RpcCall.NoEndPointsNoQuorum | src/coroutine_framework/async_action/async_action.ipp:105-121 | a call that waits for all of no endpoints is not ended by any answer |
| RpcCall.SingleResult | src/coroutine_framework/async_action/async_action.h:151-157 | a caller with one endpoint finds a first result, and it is a timeout if and only if nobody answered |
| RpcCall.TimeoutForTheSilent | src/coroutine_framework/async_action/async_action.ipp:86-132 | a timed-out caller finds all answers in the order of arrival, and a timeout for an endpoint if and only if it is listed and did not answer or is listed twice |
| RpcCall.StrangerBreaksAssertion | src/coroutine_framework/async_action/async_action.ipp:98-132 | one stranger's answer makes the assertion of `timeout_cb` false |
| NetGuarantees.AtMostOneCommit | src/coroutine_framework/net_module/net_service.cpp:99-117 | for every interleaving of responses and timers, left-over ones included, each call is committed at most once, and not while it is in the table |
| NetGuarantees.NoCallWaitsForever | src/coroutine_framework/net_module/net_service.cpp:156-176 | the own timer of every entry has not fired; when all timers have fired the table is empty and every call has been committed exactly once or is about to be |
| NetGuarantees.WokenInTime | src/coroutine_framework/net_module/net_service.cpp:99-176 | in every run, a caller leaves the table at exactly its quorum's answer or by a timer before it, with what the answers booked for it made of its call, whoever they were meant for |
| NetGuarantees.EntryBeforeRequest | src/coroutine_framework/net_module/net_service.h:40-55 | in every reachable state, each request spawned and each response in flight was made for a call that had begun, and so had its entry first |
| NetGuarantees.StrandedRun | src/coroutine_framework/net_module/net_service.cpp:36-39 | after the stop no run removes or changes an entry |
| NetResults.ResultsAreDelivered | src/coroutine_framework/net_module/net_service.cpp:99-117 | for every run after the insertion of a call, until its coroutine begins another: a waiting call keeps its endpoints and condition, and its results are, in order, the endpoints and values of the messages delivered for it; an ended one was handed back by one of the steps with those up to its end, and behind them only timeouts if a timer ended it |
| NetForeign.LeftOverTimerEndsLaterCall | src/coroutine_framework/net_module/net_service.cpp:156-176 | a run in which a call is answered and its own timer then ends the next call of the coroutine, whose own timer has not fired |
| NetForeign.LateAnswerEndsLaterCall | src/coroutine_framework/net_module/net_service.cpp:99-117 | a run in which a call times out and the late answer to its request then ends the next call of the coroutine, whose own request is not sent yet |
| NetForeign.EndedByOtherIff | src/coroutine_framework/net_module/net_service.cpp:99-176 | in every reachable state, a waiting call can be ended by a timer or answer made for another call if and only if the service runs and such a timer is unfired, or such a request is unanswered and the quorum is not 0 |
| NetService.NetService.CommitSendRequestTask | src/coroutine_framework/net_module/net_service.h:39-55 | takes exactly the insertion of the entry and then one spawn per endpoint, in order, among steps of others |
| NetService.AsksEveryEndPoint | src/coroutine_framework/net_module/net_service.h:52-55 | spawn number i is a request of this call to endpoint number i, one for each |
| NetService.NetService.ReceiveResponse | src/coroutine_framework/net_module/net_service.cpp:99-117 | takes exactly the delivery and, if and only if the call is over, one commit of that entry's own coroutine; the results grow by exactly the sender and the value of the message, in the table if the call goes on and as the caller finds them if it is over; no other entry changes |
| NetService.NetService.Timeout | src/coroutine_framework/net_module/net_service.cpp:156-176 | takes exactly the expiry and, if and only if there was an entry, one commit of its coroutine; the caller finds its results and behind them one timeout per unanswered endpoint |
| Framework.WheelPart | src/coroutine_framework/scheduler.cpp:64-91 | the wheel inside any run of the system makes a run of the wheel alone, so all wheel results carry over |
| Framework.NetPart | src/coroutine_framework/scheduler.cpp:64-91 | the table inside any run of the system makes a run of the table alone |
| FrameworkInvariant.FoundWhereExpected | src/coroutine_framework/scheduler.cpp:64-91 | every step finds the coroutine it moves in exactly the place it takes it from: a committed frame's coroutine was asleep as that frame, a committed caller was calling |
| FrameworkInvariant.NoEntryWhileRunning | src/coroutine_framework/net_module/net_service.h:46-50 | a running coroutine has no entry in the table |
| FrameworkInvariant.InvStep | src/coroutine_framework/scheduler.cpp:64-91 | every step of any thread keeps the invariant over queue, workers, wheel and table at once |
| Ownership.SingleOwnership | src/coroutine_framework/scheduler.cpp:65-91 | in every reachable state, with any number of workers, a coroutine is in its one place exactly once and in no other: queue, worker, wheel frame, or table and hand-off |
| Ownership.NeverResumedTwice | src/coroutine_framework/scheduler.cpp:82-91 | suspensions <= resumptions <= wake-ups <= suspensions + 1 in every reachable state, and each frame and each call is committed at most once |
| Ownership.InsertNeverIgnored | src/coroutine_framework/net_module/net_service.h:46-50 | the insertion into the table never collides with a live entry |
| Ownership.NoCallerWaitsForever | src/coroutine_framework/net_module/net_service.cpp:156-176 | inside the whole system, a waiting caller's own timer has not fired; when no timer is left, a caller is on its way to the queue |
| Ownership.WorkersEndLast | src/coroutine_framework/scheduler.cpp:64-80 | the running count is the number of admitted coroutines that are not done; a worker ends only when there are none |
| Ownership.SleeperWokenWhenDue | src/coroutine_framework/async_action/async_action.ipp:17-24 | inside the whole system, a coroutine is not asleep any more when the visit it is due at is over, with the exceptions named in the lemma |
| Ownership.SleeperNotWokenEarly | src/coroutine_framework/async_action/async_action.ipp:17-24 | inside the whole system, only the forced scans wake a sleeper before its time |
| Ownership.SleepsAsAsked | src/coroutine_framework/async_action/async_action.ipp:17-24 | a coroutine that sleeps leaves its worker idle and is registered with the wheel under its own id, for exactly the time it named; a time that has passed is missed at once |
| Ownership.CallsAsAsked | src/coroutine_framework/async_action/async_action.ipp:63-84 | in every reachable state a coroutine that calls gets an entry of its own with its endpoints, its condition, no result and an unfired timer |
| Shutdown.StopStrandsCallers | src/coroutine_framework/scheduler.cpp:43-51 | a call in the table when the net service stops is never woken in any continuation, the count stays above zero and no worker can end |
| Shutdown.StrandedIff | src/coroutine_framework/scheduler.cpp:43-51 | a call in the table of a reachable state waits for ever if and only if the net service is stopped |
| Shutdown.CallersCanBeStranded | src/coroutine_framework/scheduler.cpp:43-51 | for any call, a run that stops with it in the table |
| Shutdown.LateCommitIff | src/coroutine_framework/scheduler.h:60-86 | a coroutine that has passed the look at the stop flag and is not counted yet is never run in any continuation if and only if every worker has ended |
| Shutdown.LateCommitHappens | src/coroutine_framework/scheduler.h:60-72 | with any number of workers, such a state is reachable |
| Ownership.FirstQueuedFirstTaken | src/coroutine_framework/common_execute_module.h:12-18 | a coroutine at place k of the queue is at the front after k takes, whatever the other threads do |
| Scheduler.CoroScheduler.CommitTask | src/coroutine_framework/scheduler.h:60-86 | refused if and only if stopped, and then nothing changes; otherwise takes exactly the look, the count and the queueing, among steps of others |
| Scheduler.CoroScheduler.Loop | src/coroutine_framework/scheduler.cpp:64-80 | round after round, each from where the one before ended; the worker ends in the first round whose loop test sees the flag set and the count 0, or is followed for all rounds; its own steps are exactly those of the rounds, among steps of others |
| Scheduler.CoroScheduler.OneRound | src/coroutine_framework/scheduler.cpp:66-78 | ends if and only if the state at the loop test is stopped with count 0; otherwise takes the first coroutine of the state under the lock, resumes it once and sees it leave, if and only if the queue of that state is not empty |
| Scheduler.RoundsPerform | src/coroutine_framework/scheduler.cpp:64-91 | a worker takes no steps but those of its rounds: nothing in an idle one, take, resume and one leaving step in any other, and its end in the last |
| Scheduler.CoroScheduler.ConsumeReadyCoroutine | src/coroutine_framework/scheduler.cpp:82-91 | the taken coroutine is resumed exactly once and leaves the worker by exactly one step |
| Serialization.NumberRoundTrip | src/mechanism/serialization.hpp:74-88 | little-endian bytes give the number back |
| Serialization.NarrowAfterWiden | src/mechanism/serialization.hpp:72-73 | an enumeration of any width and sign survives the detour over int64_t |
| Serialization.RoundTrip | src/mechanism/serialization.hpp:64-176 | for every type of the nested universe, decoding an encoding gives the value back and stops at its end, whatever bytes follow |
| Serialization.MoreBytes | src/mechanism/serialization.hpp:115-176 | a successful decoding does not depend on the bytes behind it |
| Serialization.PrefixFails | src/mechanism/serialization.hpp:115-176 | decoding any strict prefix of an encoding fails |
| Serialization.EncodingsApart | src/mechanism/serialization.hpp:64-113 | one encoding of a type starts with another if and only if the values are equal |
| Serialization.DecodedHasType | src/mechanism/serialization.hpp:115-176 | whatever the bytes, a decoded value is of the type asked for and encodes to as many bytes as were read |
| WireFormat.ByteAt | src/mechanism/serialization.hpp:82-88 | byte i of a number is its digit at the place of 256^i |
| WireFormat.EnumeratorKeepsValue | src/mechanism/serialization.hpp:72-73 | an enumerator travels as the same number in 8 bytes of two's complement |
| WireFormat.FormatOf | src/mechanism/serialization.hpp:64-113 | for every type: the width of numbers, 8 bytes for an enumerator, a flag byte that is 1 for null, 8 bytes of length in front of strings and containers, nothing in front of a struct |
| WireFormat.ItemsInOrder | src/mechanism/serialization.hpp:99-104 | the bytes of two lists joined are those of the first and then those of the second |
| WireFormat.MembersInOrder | src/mechanism/serialization.hpp:105-108 | the same for the members of a struct |
| Serializer.Put | src/mechanism/serialization.hpp:82-88 | succeeds exactly when the bytes fit; nothing outside [pos, len) changes |
| Serializer.Serialize | src/mechanism/serialization.hpp:64-113 | succeeds exactly when the encoding fits behind pos, writes it there, moves pos to its end, and changes no other byte |
| Serializer.SerializeVector | src/mechanism/serialization.hpp:99-104 | the same for the length and the elements of a container |
| Serializer.SerializeMembers | src/mechanism/serialization.hpp:105-108 | the same for the members of a struct |
| Serializer.SerializeSize | src/mechanism/serialization.hpp:178-209 | the computed size is exactly the number of bytes `serialize` writes |
| Serializer.Deserialize | src/mechanism/serialization.hpp:115-176 | reads from the buffer what the format assigns to the bytes from pos on, and fails exactly when the format does |
| Serializer.DeserializeText | src/mechanism/serialization.hpp:149-157 | the same for strings, with the resize before the bounds check |
| Serializer.DeserializeVector | src/mechanism/serialization.hpp:158-167 | the same for containers, with the reserve before the elements |
| Serializer.DeserializeMembers | src/mechanism/serialization.hpp:168-171 | the same for structs |
| Serializer.BufferRoundTrip | src/mechanism/serialization.hpp:64-176 | in any buffer, what was written at pos is read back at pos, up to the same final position |
| Framing.HeaderRoundTrip | src/coroutine_framework/net_module/rpc_struct.h:63-75 | the package header survives the wire |
| Framing.HeaderSize | src/coroutine_framework/net_module/rpc_struct.h:63-75 | every header is of the serializable type and takes 32 bytes on the wire |
| Framing.HeaderLayout | src/coroutine_framework/net_module/rpc_struct.h:64-74 | which bytes of a header each of the nine members takes, for every header |
| Framing.HeaderReads | src/coroutine_framework/net_module/rpc_struct.h:64-74 | which member the receiver reads from which bytes, for every 32 bytes |
| Framing.MaskIsBitwiseAnd | src/coroutine_framework/net_module/rpc_struct.h:17-58 | for all flags of 16 bits, the message type is the bitwise and with 0x11b |
| Framing.ReadFully | src/coroutine_framework/net_module/net_service.cpp:79-94 | however the socket splits the stream, the loop ends with exactly the bytes wanted, or fails exactly when the stream is too short |
| Framing.DispatchMessage | src/coroutine_framework/net_module/rpc_mapper.cpp:15-46 | commits, answers, throws, fails or aborts as the format and the state of the process say |
| Framing.Receive | src/coroutine_framework/net_module/net_service.cpp:71-131 | the outcome of a connection, with the failures of the dispatch, is a function of the stream and the process, not of the pieces |
| Framing.MessageArrives | src/coroutine_framework/net_module/net_service.cpp:78-123 | a well-formed message is put together as sent; it has an effect only if the process takes it (function registered, not stopped, values decodable), and `receive` ends normally if and only if it does and the payload has at most 96 bytes |
| Framing.CutMessageIsLost | src/coroutine_framework/net_module/net_service.cpp:78-94 | a message cut off anywhere is never dispatched |
| Framing.HowItFails | src/coroutine_framework/net_module/net_service.cpp:78-131 | whatever the flags, the function and the payload: the process aborts, an exception is caught, or an assertion fails, each if and only if the condition named holds |
| Framing.ForeignBytesRefused | src/coroutine_framework/net_module/net_service.cpp:86-94 | bytes without the checksum at offset 28 are never dispatched, have no effect and end in a failed assertion |
| Framing.BuildRequest | src/coroutine_framework/async_action/async_action.ipp:43-84 | if and only if header and arguments fit in 1 KiB, the buffer is a version 1 header with flags 1, this function's id, the id of the calling coroutine, the listen port and the size of the arguments, and the arguments behind it |
| Framing.RequestIsCommitted | src/coroutine_framework/async_action/async_action.ipp:43-84 | from end to end: whatever follows them, those bytes make a running callee that has registered the function commit exactly that function with exactly the caller's arguments, to answer to the caller's port and coroutine |
| Framing.BuildResponse | src/coroutine_framework/task.cpp:15-30 | the buffer is a version 1 header with flags 2, the function's id, the id of the coroutine to answer, the listen port and the size of the result, and the result behind it |
| Framing.ResponseIsBooked | src/coroutine_framework/task.cpp:15-30 | from end to end: those bytes bring exactly the callee's result to the call that waits under that id, as from the callee's listen port |
| Framing.ArgumentsArrive | src/coroutine_framework/net_module/rpc_mapper.cpp:22-34 | a running callee that has registered the function commits it with exactly the caller's arguments and the address to answer; a stopped one has no effect and fails an assertion |
| Framing.ResultArrives | src/coroutine_framework/task.cpp:15-30 | a waiting call gets exactly the callee's result; without one there is no effect |
| CircularQ.CircularQ.constructor | src/spdlog/details/circular_q.h:28-31 | an empty ring of the capacity asked for; for the largest size_t a disabled one |
| CircularQ.CircularQ.PushBack | src/spdlog/details/circular_q.h:46-57 | the contents grow by the item, and a full ring drops exactly its oldest item and counts it |
| CircularQ.CircularQ.PopFront | src/spdlog/details/circular_q.h:83-83 | exactly the oldest item goes |
| CircularQ.CircularQ.Size | src/spdlog/details/circular_q.h:66-72 | the number of items held, before and after the indices wrap |
| CircularQ.CircularQ.At | src/spdlog/details/circular_q.h:76-79 | the i-th oldest item |
| CircularQ.CircularQ.Empty | src/spdlog/details/circular_q.h:85-85 | empty and full are never confused: true if and only if nothing is held |
| CircularQ.CircularQ.Full | src/spdlog/details/circular_q.h:87-93 | true if and only if as many items are held as the capacity allows, and never for a disabled ring |
| CircularQ.CircularQ.MoveFrom | src/spdlog/details/circular_q.h:101-112 | the contents, capacity and counter move; the source becomes disabled |
| CircularQ.ViewAfterPush | src/spdlog/details/circular_q.h:46-57 | a push on the raw indices, wrapped or not, is an append that drops the oldest item exactly when the indices meet |
| MpmcQueue.MpmcBlockingQueue.EnqueueWhenRoom | src/spdlog/details/mpmc_blocking_q.h:31-38 | the critical section of `enqueue` is the abstract operation |
| MpmcQueue.MpmcBlockingQueue.EnqueueWithoutWaiting | src/spdlog/details/mpmc_blocking_q.h:41-47 | `enqueue_nowait` is the abstract operation, overrun included |
| MpmcQueue.MpmcBlockingQueue.EnqueueIfRoom | src/spdlog/details/mpmc_blocking_q.h:49-57 | the critical section of `enqueue_if_have_room` is the abstract operation, a discard still uncounted; pushed if and only if there is room |
| MpmcQueue.MpmcBlockingQueue.Discard | src/spdlog/details/mpmc_blocking_q.h:59-63 | the discard is counted by a separate operation |
| MpmcQueue.MpmcBlockingQueue.EnqueueOrDiscard | src/spdlog/details/mpmc_blocking_q.h:49-64 | both operations in a row |
| MpmcQueue.MpmcBlockingQueue.DequeueFor | src/spdlog/details/mpmc_blocking_q.h:68-90 | an item is popped if and only if there is one, and it is the oldest |
| MpmcQueue.FirstInFirstOut | src/spdlog/details/mpmc_blocking_q.h:31-90 | for every interleaving of the operations: what entered is, in order, what left followed by what is queued; the counters, with the uncounted discards, count what they name; the length stays within the capacity |
| MpmcQueue.Conservation | src/spdlog/details/mpmc_blocking_q.h:31-90 | attempted = queued + delivered + overrun + discarded + discards not yet counted; without the last term if and only if there are none |
| MpmcQueue.BlockingLosesNothing | src/spdlog/details/mpmc_blocking_q.h:31-38 | with the block policy alone the delivered items followed by the queued ones are the attempted ones |
| MpmcQueue.ConservationIff | src/spdlog/details/mpmc_blocking_q.h:26-27 | conservation holds for every history if and only if the constructor's argument plus one is a size_t |
| ThreadPool.PostAsyncMsg | src/spdlog/details/thread_pool-inl.h:79-89 | block appends; overrun keeps the newest messages and counts the oldest if it had to go; discard counts the new message if there is no room; a disabled queue swallows it; each is its queue operation |
| ThreadPool.ProcessNextMsg | src/spdlog/details/thread_pool-inl.h:99-123 | takes the oldest message and stays active if and only if it is no terminate message |
| ThreadPool.WorkerLoop | src/spdlog/details/thread_pool-inl.h:91-94 | a worker processes all messages before the first terminate, in order, and takes exactly that one |
| ThreadPool.StepInv | src/spdlog/details/thread_pool-inl.h:44-123 | every step keeps: terminates are last in the queue, and queued terminates, those still to post and ended workers add up to the workers |
| ThreadPool.NeverStuck | src/spdlog/details/thread_pool-inl.h:44-55 | with room for one message, some thread can always move until the destructor is done |
| ThreadPool.ShutdownBounded | src/spdlog/details/thread_pool-inl.h:44-55 | every execution of the shutdown is bounded |
| ThreadPool.ShutdownDrains | src/spdlog/details/thread_pool-inl.h:44-123 | every maximal execution of the shutdown ends with all workers ended, the queue empty and exactly the pending messages processed |
| ThreadPool.DestructorFinishesIff | src/spdlog/details/thread_pool-inl.h:44-55 | from every reachable state the destructor can finish if and only if the capacity is at least 1 |
| TrailingZeros.RotateTestExact | src/spdlog/fmt/bundled/format-inl.h:1159-1169 | for every word size, the multiply-rotate-compare test is an exact divisibility test and yields the quotient |
| TrailingZeros.MagicTestExact | src/spdlog/fmt/bundled/format-inl.h:1177-1184 | the 2^90 / 10^8 test is an exact divisibility test for every 64-bit word and yields the quotient |
| TrailingZeros.RemoveTrailingZeros32 | src/spdlog/fmt/bundled/format-inl.h:1153-1171 | for every nonzero word: the number without its trailing zeros, and the start count plus their number (one less for an odd start count and an odd number of zeros) |
| TrailingZeros.RemoveTrailingZeros64 | src/spdlog/fmt/bundled/format-inl.h:1174-1209 | the result for every nonzero 64-bit word, the cut quotient included |
| TrailingZeros.StrippedFactorsOut | src/spdlog/fmt/bundled/format-inl.h:1152-1153 | the reference pair multiplies back to the number, and what is left is no multiple of 10 |
| TrailingZeros.FactorizationUnique | src/spdlog/fmt/bundled/format-inl.h:1152-1153 | no other pair does |
| TrailingZeros.RemovalCorrectIff | src/spdlog/fmt/bundled/format-inl.h:1174-1189 | the 64-bit variant is right if and only if the number is no multiple of 10^8 or its quotient fits in 32 bits; in particular below 2^32 * 10^8 |
| TrailingZeros.TruncatedQuotient | src/spdlog/fmt/bundled/format-inl.h:1184-1188 | an input that fails the 32-bit variant's assertion and one with a wrong result |
| IsoWeek.YearWeeksCountsThursdaysIff | src/spdlog/fmt/bundled/chrono.h:1193-1202 | for every year, the number of weeks is the number of Thursdays if and only if the year is not negative or has 52 |
| IsoWeek.WeekNumByThursday | src/spdlog/fmt/bundled/chrono.h:1203-1206 | the week number counts the weeks from January 1 to the Thursday of the week |
| IsoWeek.WeekDateCorrectIff | src/spdlog/fmt/bundled/chrono.h:1207-1220 | for every date of every year, the computed pair is the ISO week date of section 4.1.4 of ISO 8601:2004 if and only if the year is not negative or the date is in no 53rd week |
| IsoWeek.IsoWeekUnique | src/spdlog/fmt/bundled/chrono.h:1207-1220 | a day has only one ISO week date |
| IsoWeek.NextDay | src/spdlog/fmt/bundled/chrono.h:1207-1220 | between such dates the computed week date is constant from Monday to Sunday and steps to the next week exactly on Mondays, across every year boundary |
| IsoWeek.KnownDates | src/spdlog/fmt/bundled/chrono.h:1207-1220 | the week dates of three known days around the turn of a year |
| IsoWeek.YearBeforeZeroFails | src/spdlog/fmt/bundled/chrono.h:1193-1220 | a date of year -1 that gets week 52 instead of week 53 |

## Left out

- Sockets, the asio library, threads, condition variables and memory orderings: steps are atomic, an unstopped wait returns when its time has come, and notifications are not modelled. How late the system lets the loop thread run after its wait is the parameter `slack` of the methods, and is 0 in the runs of module WheelPrompt.
- Timestamps and counters of 64 bits do not wrap around, except the size of a ring buffer.
- What happens to the other queues after the wheel has lost a frame: the stale tail links it behind a node that belongs elsewhere. A run of the wheel, and of the system, ends there.
- TimeService.TimeService.RunLoop: a loop that is never stopped is followed for a given number of rounds; the results about all runs are those of the step system, which has no such bound.
- Scheduler.CoroScheduler.Loop: likewise followed for a given number of rounds; the waiting time of an idle worker is left out.
- TimeService.TimeService.RegisterFrame: a frame carries the number of the revolution whose start timestamp it read, a label the original does not store.
- The buckets of the time service hold the queues of module QueueModel as values; that the linked queue behaves like those is proved in module CoroutineQueue, for two queues that share no node.
- The labels that say which call a timer, a request or a response was made for are not in the code; it sees only the coroutine's id.
- The table of remote calls holds calls as values; the original holds pointers to the callers' own objects, whose lifetime is not modelled.
- A worker counts as free as soon as its coroutine is handed on, although it may still be inside `register_frame` or the loop over the endpoints.
- Servers answer only requests they were sent, each at most once, from any endpoint; requests and answers may take for ever.
- NetGuarantees.WokenInTime: no lower bound on the time of a timeout is stated, because a left-over timer can end a later call at once.
- Destructors and reference counts of coroutines, the chain of awaiting coroutines inside one unit, and the lock and disk modules, which do not exist yet.
- `Serializer<Expected<T>>` (error_struct.h:80-105): its size function always takes the error branch and its decoder does not switch alternatives, so neither round trip nor size exactness holds for it.
- Types with their own `serialize` members, recursive pointer types, big-endian machines, floating-point values other than as bit patterns, and failing allocations for huge lengths.
- Serializer.Serialize: the position lies within the usable length, as every caller in the repository keeps it; beyond it the original throws at its first write.
- Serializer.Deserialize: likewise; beyond the usable length the original throws at its first read.
- Rotation is modelled by adding the two shifted halves, which share no bit.
- The resetting of the overrun and discard counters while messages are counted.
- Peers have IPv4 addresses, and a user's `on_each_result` does not throw; the original aborts on other peers.
- Formatting, sinks, file rotation, reflection macros, error codes and demos.
