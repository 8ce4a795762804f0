# RT-Thread IPC, cJSON and the SHT30 checksum: a verified model

This project models three parts of the firmware and proves what they promise, for all inputs and all runs.
`dafny verify dfyconfig.toml` checks everything.

**RT-Thread IPC** (`rt-thread/src/ipc.c`). Each region that runs with interrupts disabled is one atomic step;
`rt_schedule` is a point where any other thread may step. A blocking call is therefore several steps: suspend, be
resumed or time out, look again. For each object there is a state machine over these steps (`Semaphore`, `Mutex`,
`Event`, `Mailbox`, `MessageQueue`), theorems about every run of it, and a class whose methods update the fields as
the code does and are proved to be steps of the machine. `RtList` proves the ring under the wait lists, `Deadline` the
time that is left after an early wakeup, `MutexRuns` any number of mutexes and threads together, `MutexCallers` and
`MessageQueueCalls` what callers are told by the codes returned to them, and `MessageQueueObject` the node lists of
the message queue. What the kernel does outside this file enters as steps: a resume unlinks the thread and stops its
timer (`rt-thread/src/thread.c:815-849`), a timeout unlinks it and sets its error (`rt-thread/src/thread.c:858-880`),
and a change of priority sets the current priority only (`rt-thread/src/thread.c:663-714`).

**cJSON** (`packages/cjson/cJSON.c`). `Json` says what the text of a tree is, `JsonPrint` proves that the printers,
walking over linked items, write it into a growing or a fixed buffer. `JsonString` and `JsonParse` say what the parser
computes; `StringGrammar`, `NumberGrammar` and `JsonGrammar` prove that it is the grammar of JSON; `JsonDecoder` and
`JsonParser` prove that its loops compute it and leave linked items in memory that hold it; `JsonRoundTrip` proves
that printing and parsing are inverse, and `JsonReread` that they are on items in memory. `ChildList` proves the
surgery on the child list, `ItemTrees` says what a tree of items holds and where it lies, `JsonItems` which JSON that
is. `JsonCompare` proves what `cJSON_Compare` decides, `JsonCompareItems` that its cursors over items decide it,
`Doubles` when two doubles count as equal, and `JsonDuplicate` the deep copy.

**SHT30 CRC-8** (`applications/sht30App.c`): `Crc8`, over the laws of any linear shift register, and `CrcPolynomial`,
which proves that it is the remainder of a polynomial division.

Where the code and its documentation differ, the model follows the code:

- `packages/cjson/cJSON.h:168` advises 5 bytes more than needed for a preallocated buffer. The exact need is one byte
  more than the text with its terminator (`JsonPrint.PrintPreallocated`).
- `cJSON_Compare` says no to a tree compared with a copy of itself only if a name is repeated with different values;
  where numbers are integers, exactly then (`JsonCompare.SameMeaningCompares`, `JsonCompare.CompareIsAnEquivalence`,
  `JsonCompare.RepeatedNamesDoNotCompare`, `JsonCompare.RepeatedNumbersMayCompare`).
- Its equality of numbers that are not integers is not transitive: for which doubles is stated exactly
  (`JsonCompare.RealsAreNotTransitive`, `Doubles.DoublesAreTransitiveExactly`), and so it is for real numbers, which
  for doubles is only a necessary condition (`JsonCompare.NumbersAreTransitiveExactly`).
- `cJSON_Parse` accepts more than RFC 8259: a `\u` that four hexadecimal digits do not follow, digits that start with 0
  or are missing on one side of the point, any character up to the space as a blank or in a string; exactly what is
  stated (`JsonGrammar.AcceptedIsDocument`, `JsonGrammar.DocumentIsAccepted`).
- The priority of a thread is not always restored when mutexes are released in another order than they were taken; when
  it is, is stated exactly (`MutexRuns.RestorationNeedsTheDiscipline`, `MutexRuns.PriorityIsRestoredExactly`).
- The time left to a waiting call can be wrong after a single wait that exceeds its timeout by more than 2^31 ticks; it
  is right again for some waits of a full turn of the tick counter and more, which are stated exactly
  (`Deadline.LeftIsRight`).
- `cJSON_AddItemToArray` accepts an item that is in the array already, and one with a link of its own to a next item;
  then the links are right for no list any more, and exactly then (`ChildList.AddItemToArray`).
  `cJSON_InsertItemInArray` accepts an item of the list, and the array itself, with the same result
  (`ChildList.InsertItemInArray`); so does `cJSON_ReplaceItemViaPointer`, after which the replacement is not in place
  (`ChildList.ReplaceItemViaPointer`).

## Model

| member | source | states |
|---|---|---|
| Crc8.Sht30Crc8 | applications/sht30App.c:18-35 | the nested byte and bit loop computes the CRC of the whole message, for every length |
| CrcPolynomial.CrcIsTheRemainder | applications/sht30App.c:18-35 | for every message, the checksum is the remainder of x^8 times the message, its first byte complemented, divided by x^8 + x^5 + x^4 + 1, and no other number is; that of the empty message is 0xFF |
| CrcPolynomial.ExampleOfTheDataSheet | applications/sht30App.c:18-35 | the bytes 0xBE 0xEF give 0x92 |
| Crc8.Sht30IsLawful | applications/sht30App.c:24-31 | one bit step is linear over xor and has an inverse, so the general laws of shift registers apply to this one |
| Crc8.CrcDifference | applications/sht30App.c:18-35 | crc(a) xor crc(b) depends only on a xor b, for messages of equal length |
| Crc8.ByteErrorsAreDetected | applications/sht30App.c:18-35 | two messages that differ in at most one byte have the same CRC exactly if they are equal |
| Crc8.BurstErrorsAreDetected | applications/sht30App.c:18-35 | the same for every burst of at most 8 bits that straddles two bytes |
| ShiftRegister.FeedIsInjective | applications/sht30App.c:22-32 | from different states the same bytes lead to different states |
| RtList.InsertBefore | rt-thread/include/rtservice.h:73-80 | inserting before a node is insertion into the sequence of nodes; ring and back links stay right |
| RtList.Remove | rt-thread/include/rtservice.h:86-92 | removing a node is removal from the sequence, and leaves the node linked to itself |
| RtList.IsEmpty | rt-thread/include/rtservice.h:98-101 | the ring is empty exactly if the sequence is |
| RtList.Len | rt-thread/include/rtservice.h:107-119 | the walk counts every node |
| RtList.Suspend | rt-thread/src/ipc.c:83-131 | FIFO appends; PRIO inserts in front of the first less urgent thread, that is behind its equals |
| RtList.Resume | rt-thread/src/ipc.c:140-153 | the first thread leaves the ring |
| RtList.ResumeAll | rt-thread/src/ipc.c:163-191 | every thread leaves the ring, in order, with its error set to ERROR |
| WaitQueue.SlotKeepsSorted | rt-thread/src/ipc.c:96-124 | a queue by priority stays sorted, equal priorities in order of arrival |
| WaitQueue.EnqueueIsFair | rt-thread/src/ipc.c:83-131 | with FIFO a newcomer stands at the end; with PRIO behind all that are as urgent or more and in front of all others; the rest keep their order |
| WaitQueue.WithoutIsRemoveAt | rt-thread/src/thread.c:858-880 | a timeout takes the thread off the wait list wherever it stands, and nobody else |
| WaitQueue.SuspendIsValid | rt-thread/src/ipc.c:83-131 | a thread waits at most once, and is not resumed while it waits |
| WaitQueue.ExpireIsValid | rt-thread/src/thread.c:858-880 | a timeout marks the thread with the timeout error, takes it off the list and concerns nobody else |
| WaitQueue.WokenKeepsUp | rt-thread/src/ipc.c:1621-1632 | one more message and one resumed receiver keep the no-lost-wakeup relation |
| WaitQueue.RerunKeepsUp | rt-thread/src/ipc.c:1562-1600 | a resumed thread that runs again, with or without success, leaves it true up to its own credit |
| Semaphore.RtSemaphore.constructor | rt-thread/src/ipc.c:205-228 | the initial value, nobody waiting |
| Semaphore.RtSemaphore.Take | rt-thread/src/ipc.c:330-415 | takes a unit, times out at once, or suspends the caller: new state and return code |
| Semaphore.RtSemaphore.TakeResumed | rt-thread/src/ipc.c:402-408 | after rt_schedule: the error left by whoever resumed the thread |
| Semaphore.RtSemaphore.Release | rt-thread/src/ipc.c:439-487 | a waiting thread is resumed instead of counting up; at the maximum the call fails and changes nothing |
| Semaphore.RtSemaphore.Reset | rt-thread/src/ipc.c:499-531 | all waiting threads are resumed with an error and the value is set, truncated to 16 bits |
| Semaphore.StepKeepsInv | rt-thread/src/ipc.c:330-531 | every operation and timeout keeps the invariant below |
| Semaphore.NoUnitIsLost | rt-thread/src/ipc.c:349-410 | in every reachable state a positive value excludes waiters, and value plus takes (granted ones included) equals the initial value plus successful releases |
| Semaphore.TakerIsTold | rt-thread/src/ipc.c:349-410 | a take returns EOK with a unit of its own exactly if there is one, ETIMEOUT at once, changing nothing, exactly if there is none and no time, and waits exactly if there is none and time |
| Semaphore.ReleaserIsTold | rt-thread/src/ipc.c:439-487 | a release fails, changing nothing, exactly if nobody waits and the value is at its maximum; else it is one more unit or the first waiter's |
| Semaphore.WaiterIsTold | rt-thread/src/ipc.c:402-408 | every thread, every step: it is told EOK only for a release, an error only for a reset, ETIMEOUT only for its own timeout, and that is what its call returns |
| Semaphore.ResetSets | rt-thread/src/ipc.c:499-531 | a reset sets the value, modulo 2^16 |
| Mutex.StepIsExclusive | rt-thread/src/ipc.c:670-935 | every call keeps: value 1 without owner and hold 0, or value 0 with an owner and hold at least 1; waiters only while owned |
| Mutex.RtMutex.Take | rt-thread/src/ipc.c:697-792 | re-entry, acquisition, immediate timeout, or suspension with a boost of the owner: new state, priorities and return code; the value overflow exit is unreachable |
| Mutex.RtMutex.TakeResumed | rt-thread/src/ipc.c:786-804 | after rt_schedule: the error left by whoever resumed the thread |
| Mutex.RtMutex.Release | rt-thread/src/ipc.c:854-923 | only the owner; counts down, restores the priority it recorded, hands over to the first waiter or frees; the overflow exits of hand-over and release are unreachable |
| MutexCallers.TakerIsTold | rt-thread/src/ipc.c:697-792 | a take returns EOK with the mutex taken once more, by its owner or from nobody, EFULL exactly to an owner that holds it 255 times, ETIMEOUT at once exactly if another owns it and no time, and waits exactly if another owns it and time |
| MutexCallers.ReleaserIsTold | rt-thread/src/ipc.c:854-923 | a release returns EOK exactly to the owner, ERROR and no change to others; the next owner is the first waiter |
| MutexCallers.WaiterIsTold | rt-thread/src/ipc.c:786-804 | every thread, every step: a waiter is resumed with EOK exactly when the mutex becomes its own, with ETIMEOUT by its timer, and that is what its call returns |
| MutexCallers.CallersExcludeEachOther | rt-thread/src/ipc.c:697-923 | any number of mutexes and threads, every run, by the codes returned: EOKs for takes less EOKs for releases is never negative, positive for one thread at most, which is the owner, and equals its hold but for a hand-over it has yet to be told of |
| MutexCallers.ResumedIsTold | rt-thread/src/ipc.c:786-804 | every reachable state: a resumed thread is told EOK if and only if the mutex is its own |
| MutexRuns.MutualExclusion | rt-thread/src/ipc.c:697-923 | any number of mutexes and threads, every run: exclusion holds, hold is the owner's takes (hand-overs included) less its releases, everybody else's balance is 0, waiters only while owned |
| MutexRuns.PriorityIsRestoredExactly | rt-thread/src/ipc.c:865-904 | every run, under any rule or none: a thread without a mutex is at its base priority if and only if it never gave one up or the mutex it gave up last had its base priority as original_priority |
| MutexRuns.OwnerStaysOrIsRestored | rt-thread/src/ipc.c:865-871 | giving a mutex up puts its owner at the mutex's original_priority, whatever else it holds |
| MutexRuns.OriginalIsPriorityThen | rt-thread/src/ipc.c:718-735 | original_priority is the priority its owner had when it got the mutex, loans included |
| MutexRuns.PriorityIsRestored | rt-thread/src/ipc.c:718-762 | so in every run in which a thread that holds several mutexes gives up the one it got first last, a thread without a mutex is at its base priority |
| MutexRuns.PriorityIsRestoredUnderLifo | rt-thread/src/ipc.c:865-904 | the same when mutexes are released in reverse order of acquisition |
| MutexRuns.RestorationNeedsTheDiscipline | rt-thread/src/ipc.c:865-871 | and there is a run, with two mutexes released in the other order, that ends with a thread at a priority it had only been lent |
| MutexRuns.InversionIsBounded | rt-thread/src/ipc.c:756-767 | one PRIO mutex, every run: its queue is in order of priority and then of arrival, and its owner is at least as urgent as every waiter, right after a hand-over too |
| MutexRuns.HandOverKeepsTheLead | rt-thread/src/ipc.c:878-902 | any kind of queue: after a hand-over the new owner is as urgent as every waiter exactly if the first waiter was as urgent as all the others |
| MutexRuns.FifoHandOverMayInvert | rt-thread/src/ipc.c:878-902 | and with FIFO order there is a run, from one free mutex on, after which a thread of priority 20 owns the mutex that one of priority 5 waits for |
| Event.RtEvent.Send | rt-thread/src/ipc.c:1081-1171 | bits are added, the wait list is scanned once, satisfied waiters are resumed and their CLEAR bits removed as the scan meets them |
| Event.RtEvent.Recv | rt-thread/src/ipc.c:1186-1284 | served at once, refused for an empty set, timed out at once, or suspended: new state, code and received bits |
| Event.RtEvent.RecvResumed | rt-thread/src/ipc.c:1282-1304 | after rt_schedule: the error, or the bits recorded for the thread |
| Event.RtEvent.Reset | rt-thread/src/ipc.c:1317-1345 | all waiters resumed with an error, no bit set |
| Event.ScanServesAll | rt-thread/src/ipc.c:1101-1160 | after the scan of a send no suspended waiter is satisfied, although bits were cleared while scanning |
| Event.NoWaiterIsForgotten | rt-thread/src/ipc.c:1101-1160 | in every reachable state, bit by bit: an AND waiter lacks one of its bits, an OR waiter all of them; each has AND or OR, so the exit with -RT_EINVAL in send is unreachable |
| Event.ReceivedIsAsked | rt-thread/src/ipc.c:1217-1297 | a receive that succeeds, at once or after waiting, returns all the bits asked for (AND) or a non-empty part of them (OR) |
| Event.ClearedBitsAreDeliveredOnce | rt-thread/src/ipc.c:1124-1151 | every run: between a delivery of a bit to a CLEAR receiver and the next delivery of it there is a send of that bit |
| Event.OneSendSharesNoClearedBit | rt-thread/src/ipc.c:1101-1160 | of the waiters served by one send, one with CLEAR shares no bit with those served after it |
| Event.ReceiverIsTold | rt-thread/src/ipc.c:1217-1284 | bit by bit: served at once exactly if all bits asked for are set (AND), or any (OR), with those that are, which CLEAR takes away; else ETIMEOUT exactly without time, and a wait exactly with time |
| Event.AskedInBits | rt-thread/src/ipc.c:1101-1133 | what satisfies an AND and an OR waiter, bit by bit |
| Event.EveryDeliveryIsExact | rt-thread/src/ipc.c:1101-1160 | every run: a bit is set exactly if it was sent and since then neither taken by a CLEAR receiver nor wiped by a reset; every receiver got exactly the bits it asked for that were set then, at least one, and all for AND |
| Event.SenderIsTold | rt-thread/src/ipc.c:1081-1100 | a send of no bits is refused and changes nothing; any other succeeds |
| Event.WaiterIsTold | rt-thread/src/ipc.c:1282-1304 | every thread, every step: a send resumes with EOK those it delivers to, a reset with an error, a timer with ETIMEOUT; a resumed call returns that code, and the bits delivered to it last |
| Event.ServiceIsInTurn | rt-thread/src/ipc.c:1101-1160 | a send serves in the order of the wait list: when it serves one, each before it has been served or lacks its bits at that moment |
| Mailbox.RtMailbox.constructor | rt-thread/src/ipc.c:1362-1390 | an empty mailbox, its size truncated to 16 bits |
| Mailbox.RtMailbox.Put | rt-thread/src/ipc.c:1603-1619 | a word is appended to the ring; its overflow exit is unreachable |
| Mailbox.RtMailbox.Get | rt-thread/src/ipc.c:1760-1772 | the oldest word leaves the ring |
| Mailbox.RtMailbox.TrySend | rt-thread/src/ipc.c:1541-1632 | from the test of the loop on: sends and wakes a receiver, fails when full, or suspends |
| Mailbox.RtMailbox.SendAgain | rt-thread/src/ipc.c:1562-1632 | the same after rt_schedule, after an error or a spurious wakeup |
| Mailbox.RtMailbox.TryRecv | rt-thread/src/ipc.c:1696-1787 | from the test of the loop on: receives and wakes a sender, fails when empty, or suspends |
| Mailbox.RtMailbox.RecvAgain | rt-thread/src/ipc.c:1719-1787 | the same after rt_schedule, with the word that is received |
| Mailbox.RtMailbox.Reset | rt-thread/src/ipc.c:1807-1838 | all waiters resumed with an error, the ring empty |
| Mailbox.RtMailbox.OffsetsAgree | rt-thread/src/ipc.c:1603-1619 | in_offset is out_offset plus entry, modulo the size |
| Mailbox.NoWakeupIsLost | rt-thread/src/ipc.c:1541-1632 | every run, with stealing callers, timeouts and resets: a suspended receiver means no more words than resumed receivers that have yet to run, dually for senders; received words are the first ones sent, in order |
| Mailbox.StepKeepsInv | rt-thread/src/ipc.c:1541-1838 | every operation and timeout keeps that invariant |
| Mailbox.SenderIsTold | rt-thread/src/ipc.c:1541-1632 | every reachable state: EOK exactly if the word went in behind all others, EFULL exactly if full and no time, a wait exactly if full and time, the waker's error otherwise; what is not sent changes nothing |
| Mailbox.ReceiverIsTold | rt-thread/src/ipc.c:1696-1787 | EOK exactly if the first word went out, ETIMEOUT at once exactly if empty and no time, a wait exactly if empty and time, the waker's error otherwise |
| Mailbox.WaiterIsTold | rt-thread/src/ipc.c:1719-1730 | every thread, every step: who is resumed, with which code, who waits and who is gone |
| MessagePool.PutByteKeeps | rt-thread/src/ipc.c:2160-2169 | a byte copied in with interrupts enabled disturbs no other node |
| MessagePool.LinkEnqueues | rt-thread/src/ipc.c:2171-2184 | linking appends the message, or prepends it if urgent |
| MessagePool.UnlinkDequeues | rt-thread/src/ipc.c:2436-2449 | unlinking removes the first message |
| MessageQueue.NodesAreConserved | rt-thread/src/ipc.c:1887-1906 | every reachable state: each node is in exactly one of the free list, the message list and the hands of one thread, and in none twice |
| MessageQueue.NoWakeupIsLost | rt-thread/src/ipc.c:2098-2208 | every run, with stealing callers, timeouts, urgent sends and resets: a suspended receiver means no more messages than resumed receivers that have yet to run; dually for senders and free nodes |
| MessageQueue.StepIsLinear | rt-thread/src/ipc.c:2160-2461 | every operation changes the deque of messages only at its linking, unlinking or reset step |
| MessageQueue.DrainingIsPrivate | rt-thread/src/ipc.c:2451-2461 | whatever others do between the two regions of a receive, the receiver keeps its node and message |
| MessageQueue.BytesAreUnchanged | rt-thread/src/ipc.c:2454-2461 | the bytes a receiver copied out agree with the message of its node, as far as both go, and it is as long as it asked for or a node holds |
| MessageQueue.FillingIsPrivate | rt-thread/src/ipc.c:2160-2169 | whatever others do between the two regions of a send, the sender keeps its node and its message |
| MessageQueue.SenderLinksItsMessage | rt-thread/src/ipc.c:2098-2190 | a whole send, urgent or not, any interleaving: what it links, at the end or at the front, is the message it was called with |
| MessageQueue.ReceiverGetsTheFirst | rt-thread/src/ipc.c:2371-2476 | a whole receive, any interleaving: it returns the bytes of the message that was first when it unlinked |
| MessageQueueCalls.SenderIsTold | rt-thread/src/ipc.c:2087-2165 | every reachable state, send or urgent, first step or after a wait: never EOK yet; a node exactly if there is one, EFULL exactly if none and no time, a wait exactly if none and time, ERROR for a message too long, the waker's error otherwise; the messages stay, and a call that returns leaves all nodes where they were |
| MessageQueueCalls.SenderIsToldOfItsMessage | rt-thread/src/ipc.c:2171-2213 | EOK comes with the step that adds the caller's message, at the end or, if urgent, at the head |
| MessageQueueCalls.ReceiverIsTold | rt-thread/src/ipc.c:2371-2452 | the same for a receive: the first message exactly if there is one, ETIMEOUT exactly if none and no time, a wait exactly if none and time, the waker's error otherwise |
| MessageQueueCalls.ReceiverIsToldWhenItIsDone | rt-thread/src/ipc.c:2457-2480 | EOK comes with the step that frees the node |
| MessageQueueCalls.NothingElseReturnsEok | rt-thread/src/ipc.c:2047-2545 | no other step but a reset returns EOK |
| MessageQueueCalls.WaiterIsTold | rt-thread/src/ipc.c:2137-2143 | every thread, every step: who is resumed, with which code, who waits and who is gone |
| MessageQueueObject.NodesAreApart | rt-thread/src/ipc.c:1887-1903 | nodes at k strides lie inside the pool and apart from each other |
| MessageQueueObject.EntryIsBelowMax | rt-thread/src/ipc.c:2186-2195 | while a thread has a node in hand the count is below max_msgs, so both overflow exits are unreachable |
| MessageQueueObject.LinkAtEndIsLinked | rt-thread/src/ipc.c:2171-2190 | the pointer surgery of a send keeps both chains, the tail and the count right |
| MessageQueueObject.LinkAtHeadIsLinked | rt-thread/src/ipc.c:2283-2298 | the pointer surgery of an urgent send does too |
| MessageQueueObject.UnlinkIsLinked | rt-thread/src/ipc.c:2436-2449 | with a message in the queue head is a node, and unlinking keeps chains, tail and count right |
| MessageQueueObject.RtMessageQueue.constructor | rt-thread/src/ipc.c:1862-1912 | rt_mq_init chains all nodes of the pool into the free list; message size and number are truncated to 16 bits |
| MessageQueueObject.RtMessageQueue.TrySend | rt-thread/src/ipc.c:2098-2167 | takes a free node, fails when there is none, or suspends; refines the machine |
| MessageQueueObject.RtMessageQueue.SendAgain | rt-thread/src/ipc.c:2119-2157 | the same after rt_schedule |
| MessageQueueObject.RtMessageQueue.Urgent | rt-thread/src/ipc.c:2244-2281 | takes a free node or fails |
| MessageQueueObject.RtMessageQueue.CopyIn | rt-thread/src/ipc.c:2168-2169 | one byte of the copy into the node |
| MessageQueueObject.RtMessageQueue.LinkAtEnd | rt-thread/src/ipc.c:2171-2213 | links the node behind the tail, counts it and wakes a receiver |
| MessageQueueObject.RtMessageQueue.LinkAtHead | rt-thread/src/ipc.c:2283-2322 | links the node in front of the head, counts it and wakes a receiver |
| MessageQueueObject.RtMessageQueue.TryRecv | rt-thread/src/ipc.c:2371-2452 | unlinks the first node, fails when there is none, or suspends |
| MessageQueueObject.RtMessageQueue.RecvAgain | rt-thread/src/ipc.c:2395-2433 | the same after rt_schedule |
| MessageQueueObject.RtMessageQueue.CopyOut | rt-thread/src/ipc.c:2454-2455 | one byte of the copy out of the node |
| MessageQueueObject.RtMessageQueue.Return | rt-thread/src/ipc.c:2457-2480 | the node goes back to the free list and a sender is woken |
| MessageQueueObject.RtMessageQueue.Reset | rt-thread/src/ipc.c:2497-2545 | all waiters resumed with an error; every queued node goes back to the free list |
| Deadline.LeftIsRight | rt-thread/src/ipc.c:1588-1598 | for any wait from any starting tick, exactly when the time left is right: the wait exceeds the timeout by no more than 2^31 ticks, or it lasts full turns of the counter and a remainder that is at least the timeout and exceeds it by no more than 2^31 |
| Deadline.Retry | rt-thread/src/ipc.c:2119-2157 | after any number of early wakeups, the time left is the timeout less the ticks since the first suspension, or 0 |
| Json.TextIsCString | packages/cjson/cJSON.c:922-1041 | a printed text contains no NUL, so update_offset finds its end |
| Json.DecimalFits | packages/cjson/cJSON.c:585-615 | a 32-bit integer fits number_buffer, so the overrun exit is unreachable |
| Json.LayoutOfLine | packages/cjson/cJSON.c:1743-1854 | formatted: every member on a line of its own, behind as many tabs as its depth, a tab behind the colon, the closing brace on a line; unformatted: no blank |
| Json.LayoutOfPair | packages/cjson/cJSON.c:1563-1622 | the elements of an array in one line, a blank behind the comma if formatted |
| JsonPrint.CountExtra | packages/cjson/cJSON.c:948-973 | the counting loop: the string and the extra characters make up the escaped string |
| JsonPrint.PrintBuffer.Ensure | packages/cjson/cJSON.c:458-541 | succeeds exactly if offset, request and one byte more fit the limit; the text survives a move |
| JsonPrint.PrintBuffer.Put | packages/cjson/cJSON.c:458-541 | precondition of every write: it lies inside what the last ensure reserved |
| JsonPrint.PrintBuffer.UpdateOffset | packages/cjson/cJSON.c:544-554 | the offset moves to the end of what was printed |
| JsonPrint.PrintBuffer.PrintNumber | packages/cjson/cJSON.c:564-632 | an item whose valuedouble is its valueint: prints the decimal text, exactly if text and 2 bytes fit |
| JsonPrint.PrintBuffer.PutEscapes | packages/cjson/cJSON.c:996-1036 | the escaping loop writes the escaped string |
| JsonPrint.PrintBuffer.PrintString | packages/cjson/cJSON.c:922-1041 | prints the quoted text, exactly if text and 2 bytes fit |
| JsonPrint.PrintBuffer.PrintValue | packages/cjson/cJSON.c:1391-1462 | from linked items that hold a tree: appends exactly the text of the tree, and succeeds exactly if offset, text and 2 bytes fit the limit |
| JsonPrint.PrintBuffer.PrintArray | packages/cjson/cJSON.c:1563-1622 | the same for arrays, the cursor following next |
| JsonPrint.PrintBuffer.PrintObject | packages/cjson/cJSON.c:1743-1854 | the same for objects, formatted or not |
| JsonPrint.PrintPreallocated | packages/cjson/cJSON.c:1316-1333 | succeeds if and only if length is at least the text's length plus 2; then the buffer holds the text and a NUL |
| JsonPrint.PrintBuffered | packages/cjson/cJSON.c:1285-1314 | from any prebuffer, 0 included, prints every tree whose text and 2 bytes fit INT_MAX, and no other |
| JsonPrint.Print | packages/cjson/cJSON.c:1207-1273 | the same, and the result is exactly the text and its NUL |
| JsonString.DecodingStaysInStep | packages/cjson/cJSON.c:840-896 | the decoding pass keeps its bound even when a malformed \u puts it out of step with the counting pass |
| JsonString.AllocationCovers | packages/cjson/cJSON.c:805-836 | so what is written, with the terminator, stays within allocation_length + 1 bytes |
| JsonString.TrackEnds | packages/cjson/cJSON.c:840-905 | at the end the decoder has passed input_end by at most the closing quote, and has written what the string decodes to |
| JsonString.Utf8IsRead | packages/cjson/cJSON.c:731-783 | the UTF-8 written for a character reads back as that character (RFC 3629) |
| JsonString.Utf8IsCanonical | packages/cjson/cJSON.c:731-783 | and no other bytes do |
| JsonString.EscapesAreDecoded | packages/cjson/cJSON.c:671-789 | every Unicode character's \u escape, as one unit or as a surrogate pair (RFC 2781), in either case of digits, is decoded to it |
| JsonString.LoneSurrogatesAreRefused | packages/cjson/cJSON.c:690-724 | a surrogate without its partner is refused |
| JsonString.QuotedIsRead | packages/cjson/cJSON.c:792-919 | parse_string applied to a printed string returns the string and stops behind its closing quote |
| JsonParse.ParseValue | packages/cjson/cJSON.c:1336-1388 | a value consumes something, and no tree nested deeper than CJSON_NESTING_LIMIT is ever read |
| StringGrammar.StringIsDenoted | packages/cjson/cJSON.c:792-919 | an accepted string is, as RFC 8259 section 7 has it, a quote, plain characters and escapes, and a quote, and what was read is what they stand for; or a \u in it is not followed by four hexadecimal digits |
| StringGrammar.StringTextIsRead | packages/cjson/cJSON.c:792-919 | and every such string is read as what it stands for |
| NumberGrammar.NumberIsDenoted | packages/cjson/cJSON.c:307-381 | an accepted number is a sign, digits, a fraction and an exponent of at most 63 characters, and what was read is what they stand for |
| NumberGrammar.NumberTextIsRead | packages/cjson/cJSON.c:307-381 | and every such number that no further number character follows is read as what it stands for |
| JsonGrammar.ValueIsDenoted | packages/cjson/cJSON.c:1336-1388 | an accepted value is one of the grammar (RFC 8259, blanks, commas, colons and brackets included), and denotes the tree read |
| JsonGrammar.ValueTextIsRead | packages/cjson/cJSON.c:1336-1388 | and every value of the grammar, nested within the limit, is read as the tree it denotes |
| JsonGrammar.AcceptedIsDocument | packages/cjson/cJSON.c:1115-1192 | what is accepted where null termination is required is a mark or none, a value between blanks and a NUL as last character, and denotes the tree read |
| JsonGrammar.DocumentIsAccepted | packages/cjson/cJSON.c:1115-1192 | and every such text, nested within the limit, is accepted as the tree it denotes |
| JsonGrammar.DocumentsAreUnambiguous | packages/cjson/cJSON.c:1115-1192 | so a text denotes one tree |
| JsonGrammar.AcceptedBeginsWithValue | packages/cjson/cJSON.c:1115-1192 | without null termination, an accepted text begins with such a value |
| JsonDecoder.ReadHex4 | packages/cjson/cJSON.c:634-667 | the digit loop computes the value of four digits, 0 if one is not hexadecimal |
| JsonDecoder.PutUtf8 | packages/cjson/cJSON.c:767-789 | the backward loop writes the UTF-8 encoding |
| JsonDecoder.FindEnd | packages/cjson/cJSON.c:805-829 | the counting loop finds the closing quote and counts the skipped bytes |
| JsonDecoder.ReadLiteral | packages/cjson/cJSON.c:680-730 | the code point of an escape or surrogate pair |
| JsonDecoder.DecodeString | packages/cjson/cJSON.c:840-899 | the decoding loop writes the decoded string and its terminator into exactly the allocated memory |
| JsonParser.ParseBuffer.Skip | packages/cjson/cJSON.c:1058-1081 | skips blanks, and steps back from the end onto the last character |
| JsonParser.ParseBuffer.SkipBom | packages/cjson/cJSON.c:1084-1097 | skips a byte order mark in front of a longer text |
| JsonParser.ParseBuffer.ReadString | packages/cjson/cJSON.c:792-919 | fills the item with the string that ParseString reads, and leaves the offset where it says, on failure too |
| JsonParser.ParseBuffer.ReadNumber | packages/cjson/cJSON.c:307-381 | fills the item with the number that ParseNumber reads, as a real number and truncated and saturated to 32 bits |
| JsonParser.ParseBuffer.ReadValue | packages/cjson/cJSON.c:1336-1388 | computes ParseValue; the item and new items under it, all links right, hold the value |
| JsonParser.ParseBuffer.ReadArray | packages/cjson/cJSON.c:1465-1560 | the loop over elements computes ParseArray, every read is inside the text, and the children are new, linked in order with prev of the first at the last |
| JsonParser.ParseBuffer.ReadObject | packages/cjson/cJSON.c:1625-1740 | the loop over members computes ParseObject likewise, with the names in the items |
| JsonParser.ParseWithLengthOpts | packages/cjson/cJSON.c:1115-1192 | new items that hold the tree, or none, and where *return_parse_end points, which is the error position on failure, and a NUL on success where null termination is required |
| JsonRoundTrip.DecimalIsRead | packages/cjson/cJSON.c:307-381 | parse_number reads back a printed integer and nothing more |
| JsonRoundTrip.ValueIsRead | packages/cjson/cJSON.c:1336-1388 | parse_value on a printed tree, whatever follows that does not continue a number: rebuilds it and consumes exactly its text if it is nested within the limit, and fails otherwise |
| JsonRoundTrip.PrintedTextIsRead | packages/cjson/cJSON.c:1099-1192 | for every printable tree, formatted or not: parsing its text succeeds if and only if it is nested at most CJSON_NESTING_LIMIT deep, rebuilds the same tree and ends at the terminator, null termination required or not |
| JsonRoundTrip.ParsedTextSurvivesPrinting | packages/cjson/cJSON.c:1099-1192 | an accepted text whose tree is printable (32-bit integers) can be printed and read again, to the same tree |
| JsonRoundTrip.TextIsInjective | packages/cjson/cJSON.c:1391-1462 | different trees have different texts |
| JsonReread.PrintThenParse | packages/cjson/cJSON.c:1115-1273 | in memory: printing items and parsing the result gives new items that hold the same tree, exactly if its text fits INT_MAX and it is nested within the limit |
| JsonReread.ParseThenPrint | packages/cjson/cJSON.c:1115-1273 | parsing a text and printing the items gives the one text of the tree, which parses to the same tree |
| JsonCompareItems.CaseInsensitiveStrcmp | packages/cjson/cJSON.c:132-155 | 0 exactly if the strings have the same characters but for letters that differ in case |
| JsonCompareItems.GetObjectItem | packages/cjson/cJSON.c:1909-1939 | the first child of that name, case sensitive or not |
| JsonCompareItems.CompareItems | packages/cjson/cJSON.c:3030-3153 | on items in memory, whatever they share: one and the same item is equal to itself, what Compare finds equal is found equal, and nothing else is if the trees share no item or repeat no name with different values |
| JsonCompare.LowerMeansSame | packages/cjson/cJSON.c:132-155 | two names are one, case apart, exactly if they have the same characters but for letters that differ in case |
| JsonCompare.GetIsTheFirst | packages/cjson/cJSON.c:1909-1939 | the member found is the first of that name by position, and none is found exactly if there is none |
| JsonCompare.SameMeaningCompares | packages/cjson/cJSON.c:3030-3153 | trees of any numbers that mean the same, with no name repeated differently, compare equal |
| JsonCompare.CompareDecidesMeaning | packages/cjson/cJSON.c:3030-3153 | two trees compare equal if and only if they mean the same as unordered JSON and no name is repeated in an object with different values |
| JsonCompare.CompareIsAnEquivalence | packages/cjson/cJSON.c:3030-3153 | symmetric and transitive on all integer trees; reflexive exactly where no repeated name has different values; case sensitive or not |
| JsonCompare.CompareIsSymmetric | packages/cjson/cJSON.c:3030-3153 | symmetric on all trees, whatever their numbers |
| JsonCompare.NumbersCompare | packages/cjson/cJSON.c:556-561 | any two real numbers count as equal, in exact arithmetic, exactly if they have the same sign and the smaller is at least 1 - epsilon times the larger |
| JsonCompare.NumbersAreTransitiveExactly | packages/cjson/cJSON.c:556-561 | over the reals: transitivity fails for two numbers, over some third, exactly if they have the same sign and are more than one and at most two factors of 1 - epsilon apart |
| JsonCompare.RealsAreNotTransitive | packages/cjson/cJSON.c:3067-3073 | for instance 1 and the two doubles that follow it |
| JsonCompare.RepeatedNumbersMayCompare | packages/cjson/cJSON.c:3092-3120 | a tree that repeats a name with different numbers and still compares equal to itself |
| Doubles.DoublesCompare | packages/cjson/cJSON.c:556-561 | two doubles count as equal exactly if both are 0, or they have the same sign and are neighbours, or have one double between them and the larger is a power of two |
| Doubles.DoublesAreTransitiveExactly | packages/cjson/cJSON.c:556-561 | over the doubles: transitivity fails for two of them, over some third, exactly if they have the same sign and are two apart, the larger no power of two, or three apart, the larger or the one below it a power of two |
| Doubles.RoundingDoesNotMatter | packages/cjson/cJSON.c:556-561 | whichever way the difference and the product are rounded to doubles, the answer is that of exact arithmetic |
| Doubles.IntegersAreExact | packages/cjson/cJSON.c:307-381 | whichever way a number is rounded to a double, an integer of up to 53 bits stays what it is |
| JsonCompare.CompareIsEqualityUpToOrder | packages/cjson/cJSON.c:3092-3139 | with unique names: equal exactly up to the order of members |
| ChildList.GetArrayItem | packages/cjson/cJSON.c:1880-1897 | the child at that index, or NULL past the end |
| ChildList.GetArraySize | packages/cjson/cJSON.c:1857-1878 | the number of children |
| ChildList.AddItemToArray | packages/cjson/cJSON.c:1985-2016 | appends through prev of the first child; the list is right again exactly if it was empty, or the item was not in it and its next was NULL; otherwise the links are right for no list at all; refuses the array itself |
| ChildList.InsertItemInArray | packages/cjson/cJSON.c:2292-2324 | inserts in front of that index, right exactly if the item is neither in the list nor the array itself, and appends past the end; otherwise the links are right for no list at all; refuses a negative index |
| ChildList.DetachItemFromArray | packages/cjson/cJSON.c:2252-2260 | removes the child at that index, or nothing |
| ChildList.DetachItemViaPointer | packages/cjson/cJSON.c:2216-2250 | removes the child at any position and clears its links |
| ChildList.ReplaceItemViaPointer | packages/cjson/cJSON.c:2326-2373 | puts the replacement in the child's place at any position, right exactly if it is the child itself, or neither in the list nor the parent; clears the child's links |
| ChildList.InsertThenDetach | packages/cjson/cJSON.c:2216-2324 | inserting and then detaching at the same index restores every list, and leaves the item on its own |
| ChildList.DetachThenInsert | packages/cjson/cJSON.c:2216-2324 | so does detaching and then inserting |
| JsonDuplicate.Duplicate | packages/cjson/cJSON.c:2747-2831 | succeeds exactly if no path goes deeper than CJSON_CIRCULAR_LIMIT; the copy is made of new items only, with all links right, and holds the same |
| JsonDuplicate.WithinMeansSteps | packages/cjson/cJSON.c:2790-2799 | that limit is on the steps of the longest path |
| JsonItems.ValueIntIsTruncated | packages/cjson/cJSON.c:366-378 | valueint is the number rounded towards 0, or the nearest that 32 bits hold |
| JsonItems.ParsedTreesCanBeDuplicated | packages/cjson/cJSON.c:2790-2799 | every tree that was parsed is within that limit |
| JsonItems.DuplicatesCompareEqual | packages/cjson/cJSON.c:2742-2831 | a duplicate, read as JSON, is the original, and cJSON_Compare says so exactly if no repeated name has different values |

## Left out

- Thread, scheduler, timer and object registry internals, and detaching or deleting an object that is in use.
- Hooks, debug output, signals (`RT_USING_SIGNALS`) and multiprocessing (`RT_USING_SMP`): not in this build.
- The wait lists inside the IPC classes are sequences; the ring of nodes under them is proved on its own in `RtList`.
- The 32 bits of an event are a set; union, intersection and difference stand for the word operations.
- MutexRuns.InversionIsBounded: the claim for runs is about one PRIO mutex. For other queues only the step that can
  break it, the hand-over, is characterised (`MutexRuns.HandOverKeepsTheLead`); loans across several mutexes are out of
  scope.
- Messages of the queue lie in an array of byte sequences, one per node; the address arithmetic is `NodesAreApart`.
- A cJSON byte is a `char`; UTF-8 is encoded with division and remainder where the code shifts and masks.
- Text of numbers that are not 32-bit integers (`%1.15g`, NaN, infinities): library behaviour.
- JsonParser.ParseBuffer.ReadNumber: `strtod` is over the real numbers, without rounding, overflow or locale; for
  integers rounding changes nothing (`Doubles.IntegersAreExact`).
- StringGrammar.StringIsDenoted: what is read where four hexadecimal digits do not follow a `\u` is not described beyond
  `JsonString.Decode` (U+0000 in their place, which ends the string).
- JsonCompare.NumbersCompare: over the real numbers, in exact arithmetic; for doubles rounding changes nothing
  (`Doubles.RoundingDoesNotMatter`).
- JsonCompare.NumbersAreTransitiveExactly: the third number is any real; for doubles see
  `Doubles.DoublesAreTransitiveExactly`.
- Doubles.RoundingDoesNotMatter: exponents are not bounded, so it is silent on numbers so small that their product with
  epsilon is subnormal, on subnormal numbers themselves, and on infinities.
- ChildList.ReplaceItemViaPointer: what the list is when the replacement was another child is not described.
- JsonPrint.PrintBuffer.PrintValue: the state after a failed print is not described, beyond staying inside the buffer.
- Allocation failure, allocation hooks (memory grows as with `realloc`), `cJSON_Raw`, reference and constant-name flags,
  NULL arguments, `cJSON_Duplicate` without `recurse`, and `cJSON_Delete`.
- JsonCompareItems.CompareItems: for trees that share items below their roots and repeat a name with different values,
  the exact answer, which depends on where the shared items are, is not described.
- Lookups by name that only combine a search with `ChildList` operations.
- `cJSON_Minify`, `cJSON_SetValuestring` and the constructors of single items.
- Drivers, hardware setup and application threads.
