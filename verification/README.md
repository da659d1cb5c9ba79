# A verified model of the Bluetooth audio firmware's stateful components

The firmware is mostly register plumbing, but a dozen of its components keep state over unbounded runs. This
project models them in Dafny and proves what they keep, deliver or conserve, over all inputs, runs and
interleavings. Each component has two layers where its source changes state: a specification of its steps as
functions over values, about which the lemmas speak, and imperative code (classes, loops, heap lists and arrays)
in the form of the source, whose contracts tie every method to its step. `dafny verify dfyconfig.toml` checks
everything.

| files | component |
|---|---|
| `IntersysLink.dfy`, `IntersysChannel.dfy`, `IntersysBusy.dfy` | the inter-processor mailbox: the protocol of one direction of a channel, the record pool with its two linked lists, and the busy vote |
| `TickerSpec.dfy`, `TickerQueue.dfy`, `TickerRun.dfy` | the timer event queue: a heap list sorted in wrap-around time, drained while handlers queue their events again and callbacks set and cancel others, and whole runs of it |
| `SafeQueue.dfy`, `SafeQueueAlone.dfy`, `SafeQueueRing.dfy` | the lock-free ring, as atomic steps of any number of threads, one call among them, and the loops one thread runs |
| `I2cSpec.dfy`, `I2cMaster.dfy` | the I2C task-mode state machine, its two FIFOs and the bus running on between its phases |
| `Arbiter.dfy` | what plays: streams and voice prompts |
| `NorFlash.dfy` | flash erase, write and read |
| `IrqChain.dfy`, `IrqManager.dfy`, `IrqRun.dfy` | interrupt chaining, on handler sequences, on the heap, and over whole runs |
| `Clock.dfy`, `ClockThreads.dfy` | PLL users, frequency votes, and the request that joins them (ULTRA_LOW_POWER build), from one thread and from any number |
| `Battery.dfy` | calibration, conversion and the five-sample mean |
| `Spi.dfy` | the circular buffer and the queue of asynchronous transfers |
| `Tone.dfy` | the phase-continuous test tone |
| `Common.dfy`, `Modular.dfy`, `Rings.dfy` | options, arithmetic of remainders, and queues in rings of slots, shared by the others |

## How it is modelled

**Mailbox.** The far side runs the receive routine of the same file. A message is its type, its data pointer and
the bytes behind it; histories record the accepted and the reported bytes with their types. Handlers are arbitrary:
the i-th handler call of an interrupt takes any number of bytes, the callback of the i-th sent record sends any
messages. The delivery invariant is kept by a step exactly if the step is safe, and the guard is also exact by what
callers see: after an unsafe step bytes arrive again or never. Two steps are unsafe: stopping short at a NULL data
pointer (that pointer doubles as the "something is saved" flag), and calling `hal_intersys_start_recv` from a handler
that then finishes the batch. Records are struct values in a pool of three, pointers are pool indices.

**Ticker.** Times are unbounded integers; the code sees their low 32 bits. `Within` bounds how late and how far ahead
events may be; as long as both together stay below 2^31, the signed comparison is right and the operations are the
specified ones. The interrupt loop reads the clock in every round: a `Course` says what it reads there and which setups
and detaches the callback of that round makes, and when. The loop ends because each round lowers the number of firings
owed by the end of the course; from some firing on callbacks set nothing that is due before that end, without which the
loop need not end. While the clock stands still and callbacks do nothing it fails to end exactly for a due periodic
event with period 0.

**Lock-free queue.** An exclusive store succeeds only if its location has not been stored to since the exclusive load,
and may fail for no reason. The counting invariant holds for all interleavings. FIFO does not, because the count is
published before the slot is written. Two history fields say which ticket was last stored in each slot and which one
each get has found, so that equal items can be told apart; with them FIFO is lost exactly by a step that reads a slot
whose put has not stored yet, or stores over an item still to be read. Runs in which puts overlap only puts and gets
only gets have no such step, and a trace shows one that has. What a call does, as opposed to what the interleavings keep,
is stated for one that no other thread disturbs, from any reachable state, and tied to the loops of `Ring`.

**I2C.** FIFO depth 8, TX_EMPTY at a level of at most 2, RX_FULL at 6 or more. The interrupt routine is cut into entry,
receive, transmit and stop phases, and the bus may execute words or abort between any two of them. RESTART is a local
variable that sticks until the call ends, so a word behind the first eligible one may carry it as well, depending on
the slicing; no more is claimed. The receive loop looks at the receive FIFO only, not at reads still on their way, so up
to ten answers can be outstanding where eight fit, and ten are reached. That the bus then waits is assumed; nothing
else keeps the last two.

**Arbiter.** `now` is what is playing. An assertion that fails halts. Where the arbiter and its list part ways is stated
exactly (`Proper`): among others a close that names another stream drops the queued one, and the factory loop is neither
removed nor resumed.

**Flash.** The chip ignores the low address bits of an erase, and a program wraps inside its page. The alignment
assertions of `hal_norflash.c` are commented out, so the code is modelled without them: an unaligned erase starts at its
sector, an unaligned write may cross a page, and a read of a length not divisible by 8 does not end. Exactly when an
erase, a write, and the cycle of erase, write and read are right for all contents and data is proved.

**Interrupt chaining.** Handles are numbered in the order in which adds return them; `History` is what a series of
calls says about one interrupt, and the closed form is stated on those numbers. Going back to a direct vector deletes
the object that stands for the original one, and the next add makes another. A function object whose function or object
pointer is NULL is in its chain and is not called.

**Battery.** The fuses may hold any two different values; 32-bit arithmetic wraps and the result has 16 bits. The error
bound needs the points in order and in range, and the line in range at the readings.

**SPI.** A call of transfer is two steps, the test and the queueing, and an interrupt may come between them; a callback
may call transfer again. Which of these steps lose the order is stated exactly, and both ways are shown.

**Clock.** `hal_sysfreq_req` keeps a stale top user, so the frequency can stay above the highest vote; when one request
leads to that is stated exactly. It never lies below a vote. `app_sysfreq_req` takes no lock: with several threads in it
each call into the lower layer is a step, runs are safe exactly if every step is right when it is taken, requests that
do not overlap are, and one that overtakes another leaves a fast clock on the USB PLL.

## Model

| member | source | states |
|---|---|---|
| `IntersysLink.EndToEndDelivery` | platform/hal/hal_intersys.c:180-229 | after every safe interleaving of sends, done interrupts whose callbacks send, receive interrupts taking any part of a message, restarts and stops: reported bytes, then the unprocessed rest, then the pending list are the accepted bytes in order; RECV_DONE stands only for a batch consumed whole; undelivered bytes can always still be moved |
| `IntersysLink.NextExact` | platform/hal/hal_intersys.c:187-228 | the delivery invariant survives a step if and only if the step is safe, i.e. it is not one of the two misuses of the receive interrupt (stopping short at a NULL pointer, restarting from a handler that then finishes the batch) |
| `IntersysLink.HarmExact` | platform/hal/hal_intersys.c:187-228 | the same guard by what callers see: from a state with the invariant a step is unsafe if and only if afterwards another receive interrupt reports more bytes than were left to report, or accepted bytes are missing and nothing that may happen makes another byte arrive |
| `IntersysLink.RunKeepsInv` | platform/hal/hal_intersys.c:231-267 | the invariant holds in every state of every safe run |
| `IntersysLink.PoliteRunsAreSafe` | platform/hal/hal_intersys.c:332-344 | runs whose messages have non-NULL data and whose receive handlers do not call start_recv are safe, whatever the handlers take |
| `IntersysLink.RxWalkConserves` | platform/hal/hal_intersys.c:198-221 | stopping anywhere in a batch neither loses, duplicates nor reorders a byte: what was reported followed by the saved rest is the batch, and the saved rest is not empty |
| `IntersysLink.TxWalkKeeps` | platform/hal/hal_intersys.c:242-254 | whatever the callbacks of the done interrupt send, accepted bytes stay the ones before the walk followed by the pending list, and no more records are used than exist |
| `IntersysLink.WalkTakesAll` | platform/hal/hal_intersys.c:242-254 | while callbacks of the done interrupt find free records, each callback's own record and those behind it still being in use, all they send becomes the next batch, in order |
| `IntersysLink.SendManyTakes` | platform/hal/hal_intersys.c:381-411 | of what one callback sends the first messages are taken, in order, exactly as many as there are free records |
| `IntersysLink.RunAims` | platform/hal/hal_intersys.c:209-213 | over every safe run, however often a message is stopped and resumed: the saved head is the end of the batch message with exactly the saved list behind it, with its type, and its pointer stands where that end begins |
| `IntersysLink.StoppedHearsNothing` | platform/hal/hal_intersys.c:346-354 | after stop_recv nothing is reported and nothing saved changes until the next start_recv, whatever else happens |
| `IntersysLink.AnythingAcceptedCanBeDelivered` | platform/hal/hal_intersys.c:332-344 | from every state of every safe run a restart and two more rounds deliver everything accepted so far |
| `IntersysLink.NullDataWedges` | platform/hal/hal_intersys.c:191-197 | a NULL message of which nothing is taken at first is never delivered, whatever happens next |
| `IntersysLink.RestartDuplicates` | platform/hal/hal_intersys.c:340-342 | in every state: a handler that calls start_recv while the rest of a batch is delivered and finished makes the next interrupt report bytes a second time |
| `IntersysLink.RestartInHandlerDuplicates` | platform/hal/hal_intersys.c:340-342 | the shortest run to that: one byte arrives twice |
| `IntersysChannel.Channel.constructor` | platform/hal/hal_intersys.c:302-307 | opening leaves empty lists, a free pool and nothing saved |
| `IntersysChannel.Channel.FindFree` | platform/hal/hal_intersys.c:381-385 | finds a record that is not in use if and only if the two lists do not fill the pool, also in the middle of the done interrupt |
| `IntersysChannel.Channel.SendAnywhere` | platform/hal/hal_intersys.c:356-411 | from any context, callbacks included: the message joins the end of exactly one list or the call fails with the right code and changes nothing; records in use stay as they are |
| `IntersysChannel.Channel.Send` | platform/hal/hal_intersys.c:356-411 | outside the done interrupt it is exactly the protocol step, and the pool/list invariant survives |
| `IntersysChannel.Channel.Callback` | platform/hal/hal_intersys.c:249-251 | any sends from a callback keep the lists walkable, although records already freed are recycled behind the walk |
| `IntersysChannel.Channel.Free` | platform/hal/hal_intersys.c:252-253 | the walk goes on at the next record of the batch after freeing the one reported |
| `IntersysChannel.Channel.TxIrq` | platform/hal/hal_intersys.c:231-267 | the whole done interrupt is the protocol step: every record of the batch is reported and freed, the pending list becomes the batch, and the channel is busy exactly if there is one |
| `IntersysChannel.Channel.RxIrq` | platform/hal/hal_intersys.c:187-228 | the whole receive interrupt is the protocol step: it resumes the saved message or starts the batch, and saves the rest, pointing at the first byte not taken, or raises RECV_DONE |
| `IntersysChannel.Channel.StartRecv` | platform/hal/hal_intersys.c:332-344 | enabling reception raises the interrupt again exactly if a rest is saved |
| `IntersysChannel.Channel.StopRecv` | platform/hal/hal_intersys.c:346-354 | disabling reception masks the interrupt and changes nothing else |
| `IntersysChannel.Serve` | platform/hal/hal_intersys.c:187-411 | any safe series of steps on a channel just opened: records, lists and histories are what the protocol run says, so the reported bytes, the rest and the pending list are the accepted bytes in order, and a saved rest points into its message |
| `IntersysBusy.BusyVote.SetBusy` | platform/hal/hal_intersys.c:68-99 | the mailbox votes for 26M exactly while some channel is busy and for 32K otherwise, and touches no other vote |
| `TickerSpec.WindowOrder` | mbed/common/ticker_api.c:71 | within a window of 2^31 the signed 32-bit difference of two time stamps is the true difference, across any wrap |
| `TickerSpec.InsertSplits` | mbed/common/ticker_api.c:67-87 | an inserted event comes behind everything due no later, equal times included, and before everything due later |
| `TickerSpec.WithoutSplits` | mbed/common/ticker_api.c:93-112 | removing an absent event changes nothing; a queued one leaves and the others keep their order |
| `TickerSpec.RoundOutstanding` | mbed/common/ticker_api.c:37-45 | each round of the interrupt loop lowers the number of firings owed by exactly one although the handler queues its event again |
| `TickerSpec.ActsOwe` | mbed/common/ticker_api.c:43 | a callback whose setups are due only after the end of the drain, and whatever it cancels, adds nothing to the firings owed by then |
| `TickerSpec.DrainCount` | mbed/common/ticker_api.c:30-53 | with the clock running on during the drain, no more handlers run than firings are owed by its end, whatever callbacks set to later times and cancel |
| `TickerSpec.DrainStopsExactly` | mbed/common/ticker_api.c:30-53 | while the clock stands still and callbacks do nothing, the loop ends if and only if no due periodic event has period 0 |
| `TickerSpec.FireTimesExact` | mbed/common/Ticker.cpp:35-38 | an event due at t with period d fires floor((now - t) / d) + 1 times, at t, t + d, t + 2d and so on |
| `TickerSpec.DrainFires` | mbed/common/ticker_api.c:30-53 | over a whole drain, with the clock read in every round and callbacks that set and cancel events as they like, each queued event that none of them names fires exactly at its own times up to the last reading, then waits at its next one, or is gone if it does not repeat |
| `TickerSpec.DrainOrder` | mbed/common/ticker_api.c:30-53 | however time goes by and whatever callbacks set and cancel, handlers run in time order overall, none before the loop has read a time at which it is due, and everything left is sorted, without duplicates and due after the last reading |
| `TickerSpec.UnheardExactly` | mbed/common/ticker_api.c:42-44 | without an event handler exactly the events due by the last reading are lost, and the others keep their order |
| `TickerSpec.RunOf` | mbed/common/ticker_api.c:26-115 | the invariant of runs: over every series of setups, detaches, interrupts with arbitrary callbacks and passing time, and waiting, the queue stays sorted, without duplicates and inside a window shorter than 2^31 |
| `TickerRun.RunFires` | mbed/common/ticker_api.c:26-115 | over every fair run an event that nobody sets or cancels any more fires exactly at its own times up to the last time an interrupt has read the clock, then waits at its next one; a Timeout that has fired is gone |
| `TickerRun.SetThenFires` | mbed/common/Ticker.cpp:29-38 | in particular an event set in a run and named by nobody afterwards, from the time of the call plus its delay on |
| `TickerRun.Serve` | mbed/common/ticker_api.c:26-115 | any fair series of setups, detaches, interrupts and waiting on a heap list: list, clock and handler calls are what the run says |
| `TickerSpec.LastWordCounts` | mbed/common/ticker_api.c:40-44 | the last thing a callback does to an event counts, also to the one whose handler has just queued itself again: detached it is gone, set it is due at its new time only |
| `TickerSpec.IrqBuysTime` | mbed/common/ticker_api.c:37 | after an interrupt the clock may run on by the whole latency bound, whatever is queued and whatever its callbacks have set |
| `TickerQueue.Queue.InsertEvent` | mbed/common/ticker_api.c:56-88 | the list becomes the specified queue with the event inserted, stays acyclic, and the compare value is the head's time stamp |
| `TickerQueue.Queue.RemoveEvent` | mbed/common/ticker_api.c:90-115 | the list becomes the specified queue without the event; the compare value is the new head's, or off when the queue is empty |
| `TickerQueue.Queue.RunHandler` | mbed/common/Ticker.cpp:36 | before its callback runs, a Ticker event is queued again one period after its own time stamp, a Timeout is not |
| `TickerQueue.Queue.Callback` | mbed/common/ticker_api.c:43 | a callback's setups and detaches in the middle of a drain, each at its own time and while the timer is not armed for the head, keep the list as specified |
| `TickerQueue.Queue.DrainOne` | mbed/common/ticker_api.c:40-44 | one round takes the head off, queues it again if it is periodic, and then runs its callback |
| `TickerQueue.Queue.DrainAll` | mbed/common/ticker_api.c:30-53 | the loop, which reads the clock in every round, terminates and calls the handlers the specified drain calls, in the same order, with arbitrary callbacks |
| `TickerQueue.Queue.DropDue` | mbed/common/ticker_api.c:30-45 | without an event handler the loop takes what is due off the queue and calls nothing |
| `TickerQueue.Queue.IrqHandler` | mbed/common/ticker_api.c:26-54 | the interrupt, callbacks and passing time included, is the specified drain, or drops what is due while no event handler is installed, and leaves the timer armed for the head or off; it returns how many handlers have run |
| `TickerQueue.Queue.Setup` | mbed/common/Ticker.cpp:29-33 | setup leaves the event queued once, due its new delay from now, in its place |
| `TickerQueue.Queue.Detach` | mbed/common/Ticker.cpp:24-27 | a detached event is not queued; the others keep their order |
| `SafeQueue.RunKeepsCounted` | apps/usbaudio/safe_queue.c:18-30 | for any threads in any interleaving: last and first are the totals of index advances modulo size, and count is those totals corrected by the reservations under way, between 0 and size |
| `SafeQueue.RunsAreFifoExactly` | apps/usbaudio/safe_queue.c:13-57 | any number of threads, any interleaving: every get has returned the item of its own ticket and every unread item is where its get will look, if and only if no step of the run read a slot before its put had stored or stored over an item still to be read; when all calls are over, the gets have then returned the oldest accepted items in ticket order and the ring holds the rest in ticket order |
| `SafeQueue.NextExact` | apps/usbaudio/safe_queue.c:32-56 | FIFO survives a step if and only if it is not one of those two, each told from the counters and threads as they stand, and no later step restores it |
| `SafeQueue.NextKeepsRecorded` | apps/usbaudio/safe_queue.c:13-57 | unguarded, in every reachable state: no ticket is held twice, each slot holds the item last stored there, and each answer is the item found |
| `SafeQueue.WritersHaveFreeSlots` | apps/usbaudio/safe_queue.c:25-32 | while no get is under way, producers about to store never share a slot, nor use the slot of an item still to be read |
| `SafeQueue.PhasedRunsAreFifo` | apps/usbaudio/safe_queue.c:13-57 | a discipline callers can keep: if puts overlap only puts and gets only gets, every step is right, so the result is FIFO |
| `SafeQueue.OverlappingGetReadsUnwritten` | apps/usbaudio/safe_queue.c:22-32 | a run that is not: a get that overtakes a half-done put returns the slot's old content and the item put is lost |
| `SafeQueueAlone.PutAlone` | apps/usbaudio/safe_queue.c:13-34 | from every reachable state, with no other thread moving meanwhile: a put ends however its exclusive stores fail, refused exactly when the ring is full and changing nothing then, and otherwise with its item accepted last, stored in the slot of its ticket and counted |
| `SafeQueueAlone.GetAlone` | apps/usbaudio/safe_queue.c:36-57 | the same for a get: refused exactly at count 0, and otherwise the oldest ticket is answered with what lies in its slot, which is its item if that has landed and FIFO has not been lost |
| `SafeQueueAlone.PutGivesUpExactly` | apps/usbaudio/safe_queue.c:18-23 | whatever other threads do, a put gives up exactly at a load that finds reserved and accepted items together filling the ring |
| `SafeQueueAlone.GetGivesUpExactly` | apps/usbaudio/safe_queue.c:41-46 | whatever other threads do, a get gives up exactly at a load that finds nothing left unclaimed |
| `SafeQueueRing.Ring.constructor` | apps/usbaudio/safe_queue.c:4-11 | a fresh queue is empty and has as many slots as the low byte of the size says, none for 256 |
| `SafeQueueRing.Ring.Put` | apps/usbaudio/safe_queue.c:13-34 | one thread, any number of failed exclusive stores: a bounded FIFO append, refused exactly when full |
| `SafeQueueRing.Ring.Get` | apps/usbaudio/safe_queue.c:36-57 | one thread, any number of failed exclusive stores: the oldest item, refused exactly when empty |
| `SafeQueueRing.Ring.PutAsThread` | apps/usbaudio/safe_queue.c:13-34 | on the shared variables of any reachable state the put loops do what an idle thread's put does alone, with the same return code |
| `SafeQueueRing.Ring.GetAsThread` | apps/usbaudio/safe_queue.c:36-57 | and the get loops what its get does, with the same answer |
| `I2cSpec.TransfersAreExact` | platform/hal/hal_i2c.c:563-716 | however the interrupts slice the transfers: tasks finish in commit order, in_task is (out_task + task_count) mod 2, and each task that ends without error has sent exactly its words, STOP on the last only, and stored exactly the answers behind the bytes sent |
| `I2cSpec.ErrcodesAreExact` | platform/hal/hal_i2c.c:574-608 | over every allowed run the handler of each finished task is told the source of the abort that struck that very task, and 0 if none did |
| `I2cSpec.ReceiveConserves` | platform/hal/hal_i2c.c:656-708 | bytes stored, bytes in the receive FIFO and reads in the command FIFO add up to the reads issued, at most rx_len; every store stays in the buffer although the loop bound moves; the command FIFO never overflows |
| `I2cSpec.WordsOk` | platform/hal/hal_i2c.c:669-688 | the words of one call carry the buffer's bytes then reads; none before the first word that may carries RESTART, and that one does exactly if requested |
| `I2cSpec.RestartExactly` | platform/hal/hal_i2c.c:631-690 | a task that ended without error has put RESTART on its first word when sending, on its first read when receiving and on no byte before it, each exactly if it was asked for |
| `I2cSpec.PushKeeps` | platform/hal/hal_i2c.c:629-645 | a burst on TX_EMPTY extends the issued words by exactly the next ones and fits the FIFO |
| `I2cSpec.DrainFits` | platform/hal/hal_i2c.c:698-704 | what is in the receive FIFO always fits behind rx_idx; at STOP it completes the transfer |
| `I2cSpec.OutstandingBound` | platform/hal/hal_i2c.c:666-695 | over every allowed run at most ten answers are outstanding, in the receive FIFO or as reads in the command FIFO, two more than the receive FIFO holds |
| `I2cSpec.BoundIsReached` | platform/hal/hal_i2c.c:666-695 | a run with ten outstanding, because the receive loop does not count the reads still in the command FIFO |
| `I2cSpec.MaskedAlways` | platform/hal/hal_i2c.c:629-695 | over every allowed run TX_EMPTY is let through exactly while the running task has words left to push |
| `I2cSpec.PhasesExactly` | platform/hal/hal_i2c.c:656-695 | what one call does for a receiving task: a receive FIFO with six bytes or more is emptied; a command FIFO with two words or fewer gets as many as one call pushes, unless TX_EMPTY is masked; else both stay |
| `I2cSpec.CommitExact` | platform/hal/hal_i2c.c:218-244 | a commit appends to the queue of tasks exactly when a slot is free; with both taken it overwrites the running task |
| `I2cSpec.DoneKeeps` | platform/hal/hal_i2c.c:324-334 | a finished task leaves the front, its handler's commits join the back, and the next task starts afresh, or the machine is idle |
| `I2cSpec.RunKeeps` | platform/hal/hal_i2c.c:563-716 | the transfer invariant holds in every state of every run |
| `I2cSpec.EmptyTransferWedges` | platform/hal/hal_i2c.c:631-651 | a task that asks for no byte never sees a STOP: nothing finishes any more |
| `I2cSpec.NonEmptyTransferCanFinish` | platform/hal/hal_i2c.c:656-707 | from every state a task that asks for at least one byte can be run to its end |
| `I2cMaster.Master.SmCommit` | platform/hal/hal_i2c.c:218-244 | fills the slot in_task names and returns it |
| `I2cMaster.Master.SmDoneTask` | platform/hal/hal_i2c.c:245-326 | logs the current task, lets its handler commit, then frees the slot |
| `I2cMaster.Master.SmNextTask` | platform/hal/hal_i2c.c:336-370 | starts the next task afresh, or goes idle with both indices 0 |
| `I2cMaster.Master.SmKickoff` | platform/hal/hal_i2c.c:556-562 | starts a task only when none is running |
| `I2cMaster.Master.ReadLoop` | platform/hal/hal_i2c.c:699-704 | stores the FIFO's bytes in order behind rx_idx, inside the buffer |
| `I2cMaster.Master.SendLoop` | platform/hal/hal_i2c.c:631-640 | pushes exactly the next words of a sending task, at most six |
| `I2cMaster.Master.RecvLoop` | platform/hal/hal_i2c.c:669-690 | pushes exactly the next words of a receiving task, as many as both FIFOs have room for |
| `I2cMaster.Master.Proc` | platform/hal/hal_i2c.c:563-716 | the whole routine, with the bus running on between its phases, is the run of its phases; on an abort exactly one task is reported, the current one with the abort's source and its buffer and traffic as they stand |
| `Arbiter.NextKeepsShape` | apps/audioplayers/app_audio.cpp:263-309 | the list keeps at most one stream, in front; at most 5 elements, 1 incoming-call, 4 warning and 4 language prompts; the assertions on the next element never fail, and the third fails exactly when an unfiltered prompt meets a full list holding a prompt |
| `Arbiter.RunKeepsShape` | apps/audioplayers/app_audio.cpp:249-315 | these limits hold over every series of messages until the arbiter halts |
| `Arbiter.OpenExactly` | apps/audioplayers/app_audio.cpp:370-484 | a stream takes the place of the whole list; a prompt joins the end exactly if fewer than one call, four warnings or four languages of its kind are queued, and then plays at once exactly if no prompt is ahead; otherwise nothing changes |
| `Arbiter.CloseExactly` | apps/audioplayers/app_audio.cpp:487-563 | closing a prompt takes the first one out and opens what then stands there; closing another id takes the stream away, whichever it is, and ends what plays only if it has that id |
| `Arbiter.QueuedIsCount` | apps/audioplayers/app_audio.cpp:383-400 | the recursive count is the number of places that hold a prompt of the kind |
| `Arbiter.AgreementExact` | apps/audioplayers/app_audio.cpp:263-309 | after a message the open stream is the first queued prompt if any, else the stream, if and only if the message is proper (id that can be played; close naming the playing stream; no factory loop to close or resume) |
| `Arbiter.ProperRunsAgree` | apps/audioplayers/app_audio.cpp:263-309 | over every series of proper messages what is open is what should be |
| `Arbiter.StreamResumes` | apps/audioplayers/app_audio.cpp:502-529 | prompts queued over a stream play one by one in order, and then the stream plays again |
| `Arbiter.WrongCloseForgetsTheStream` | apps/audioplayers/app_audio.cpp:549-553 | closing another stream while a prompt plays drops the queued stream: nothing resumes |
| `Arbiter.Player.CountExceeds` | apps/audioplayers/app_audio.cpp:383-400 | the counting loops with early return decide whether more than the limit are queued |
| `Arbiter.Player.FilterExist` | apps/audioplayers/app_audio.cpp:370-404 | decides the per-kind caps |
| `Arbiter.Player.PlaybackExist` | apps/audioplayers/app_audio.cpp:407-421 | finds a prompt if there is one |
| `Arbiter.Player.StreamExist` | apps/audioplayers/app_audio.cpp:348-367 | finds a stream if there is one |
| `Arbiter.Player.ListAppend` | apps/audioplayers/app_audio.cpp:423-484 | append, filter, replace or halt as specified, and whether to open at once |
| `Arbiter.Player.RmvCallback` | apps/audioplayers/app_audio.cpp:487-563 | what leaves the list on a close, and what is opened next |
| `Arbiter.Player.HandleProcess` | apps/audioplayers/app_audio.cpp:249-315 | each message is one step of the specified arbiter |
| `NorFlash.ErasePlanIsMinimal` | platform/hal/hal_norflash.c:240-265 | from a sector boundary, on the chip: the loop's erases are aligned, cover exactly the rounded range, and no set of aligned sector, block or chip erases that does so is smaller |
| `NorFlash.RoundedUp` | platform/hal/hal_norflash.c:242 | the length is rounded up to the next multiple of the sector size |
| `NorFlash.CrossesExactly` | platform/hal/hal_norflash.c:285-300 | a program of the write loop runs over a page boundary if and only if the start is unaligned and the data runs past its page |
| `NorFlash.WriteRightExactly` | platform/hal/hal_norflash.c:271-305 | a write clears exactly the bits it should, for all contents and all data, if and only if none of its programs crosses a page |
| `NorFlash.CrossingWriteWraps` | platform/hal/hal_norflash.c:295 | a crossing write clears bits at the beginning of the page it came from, in front of its range |
| `NorFlash.CycleRightExactly` | platform/hal/hal_norflash.c:229-331 | erase, write and read of one non-empty range return the buffer written, for all contents and all data, if and only if the erased sectors reach its end and no program crosses a page |
| `NorFlash.EraseRightExactly` | platform/hal/hal_norflash.c:240-265 | erasing from the first sector on is erasing the requested (rounded) range, for all contents, if and only if the start is sector-aligned or nothing is erased |
| `NorFlash.AndBits` | platform/hal/hal_norflash.c:295 | a programmed cell keeps a bit exactly if both the old cell and the byte have it |
| `NorFlash.ReadEndsExactly` | platform/hal/hal_norflash.c:321-327 | the read loop ends if and only if the length is divisible by 8 |
| `NorFlash.Flash.EraseRange` | platform/hal/hal_norflash.c:229-269 | terminates, issues the planned erases, and sets exactly the rounded range from the first sector on to 0xFF |
| `NorFlash.Flash.WriteRange` | platform/hal/hal_norflash.c:271-305 | programs page-sized pieces one after the other, wherever the page boundaries are |
| `NorFlash.Flash.ReadRange` | platform/hal/hal_norflash.c:306-331 | returns the cells, for the lengths for which the loop ends |
| `NorFlash.Flash.RoundTrip` | platform/hal/hal_norflash.c:229-331 | the three loops one after the other are that cycle on the chip |
| `IrqRun.Serve` | mbed/common/InterruptManager.cpp:41-81 | over any series of adds, front adds, removes and interrupts on any interrupt numbers, with chains made, grown and collapsed on the way: each interrupt calls exactly the live front adds, newest first, the original vector, and the live adds, oldest first, each that is not NULL once and in its place; and every handle added and not removed is in its chain |
| `IrqRun.OriginalStays` | mbed/common/InterruptManager.cpp:45-46 | the original vector is in every handler sequence of every run |
| `IrqRun.HandlersExpected` | mbed/common/InterruptManager.cpp:52-77 | a manager that follows its history calls that closed form, whether the interrupt is chained or direct |
| `IrqRun.LiveStays` | mbed/common/InterruptManager.cpp:62-77 | a handle that was given out and not removed is never lost with a chain |
| `IrqChain.SeriesInClosedForm` | mbed/common/CallChain.cpp:48-88 | on sequences: appends, prepends and removals of distinct handles around an element nobody holds come to that closed form |
| `IrqChain.CallsAre` | mbed/api/FunctionPointer.h:157-163 | calling a list of function objects calls each target that is not NULL once, in its place, plain or member function; with no NULL among them exactly the list |
| `IrqManager.CallChain.CheckSize` | mbed/common/CallChain.cpp:65-73 | there is room for one more and nothing has moved |
| `IrqManager.CallChain.CommonAdd` | mbed/common/CallChain.cpp:75-80 | the chain grows by one at the end |
| `IrqManager.CallChain.CommonAddFront` | mbed/common/CallChain.cpp:82-88 | the chain grows by one at the front, the others keep their order |
| `IrqManager.CallChain.Find` | mbed/common/CallChain.cpp:33-38 | the first occurrence, or -1 exactly if there is none |
| `IrqManager.CallChain.Remove` | mbed/common/CallChain.cpp:48-58 | the function object leaves, the others keep their order; false and no change exactly if it is not there |
| `IrqManager.CallChain.Call` | mbed/common/CallChain.cpp:60-63 | calls every function that is not NULL once, in order; the contents themselves when there is no NULL |
| `IrqManager.InterruptManager.MustReplaceVector` | mbed/common/InterruptManager.cpp:41-50 | taking over an interrupt changes no handler sequence; a new chain holds one new object that stands for the old vector |
| `IrqManager.InterruptManager.AddCommon` | mbed/common/InterruptManager.cpp:52-60 | the handler joins the end or the front of its interrupt's sequence; every other interrupt is unchanged |
| `IrqManager.InterruptManager.Collapse` | mbed/common/InterruptManager.cpp:70-75 | going back to a direct vector changes no handler sequence, and happens exactly when one plain function is left, which the vector then is |
| `IrqManager.InterruptManager.RemoveHandler` | mbed/common/InterruptManager.cpp:62-77 | the handler leaves its interrupt's sequence, whichever representation that ends in; every other interrupt is unchanged |
| `IrqManager.InterruptManager.Raise` | mbed/common/InterruptManager.cpp:79-81 | raising an interrupt calls its handler sequence, chained or direct: exactly that sequence when no pointer in it is NULL, and each target that is not NULL once and in its place in any case |
| `Clock.RunIsSafe` | apps/common/app_utils.c:12-35 | over all request sequences: both PLLs are on at every mux switch, a PLL is powered exactly when it has a user, and a system frequency above 52M has the audio PLL selected, powered and held by SYS; with drivers and applications apart, SYS holds it only then |
| `Clock.HeldExactly` | platform/hal/hal_cmu.c:367-435 | a PLL that the codec or USB has switched on stays powered until it switches it off again, whatever frequencies are asked for in between, and it is in the user map exactly so long |
| `Clock.LastVotesStand` | platform/hal/hal_sysfreq.c:28-56 | over every series of requests each user's last valid request is its vote, and the frequency is no lower |
| `Clock.NextIsSafe` | apps/common/app_utils.c:12-35 | every request and PLL call of the codec and USB keeps that |
| `Clock.NextIsEconomical` | apps/common/app_utils.c:29-31 | SYS holds the audio PLL exactly while the frequency is above 52M |
| `Clock.UsersKeepConsistent` | platform/hal/hal_cmu.c:367-435 | for users other than INIT a PLL is powered exactly when its user set is not empty |
| `Clock.UsersAreExact` | platform/hal/hal_cmu.c:367-435 | a call adds or removes exactly its user in exactly its PLL's map, and leaves the other PLL alone |
| `Clock.InitExactly` | platform/hal/hal_cmu.c:379-392 | the INIT user leaves that true exactly when it asks for what the user set already says |
| `Clock.LowFreqEnableIsSafe` | platform/hal/hal_cmu.c:877-887 | both PLLs are on while the mux moves to USB; only SYS's claim on the audio PLL is gone afterwards |
| `Clock.LowFreqDisableIsSafe` | platform/hal/hal_cmu.c:889-899 | both PLLs are on while the mux moves to AUD, which SYS then holds |
| `Clock.VotesAreServed` | platform/hal/hal_sysfreq.c:13-59 | the frequency never lies below any vote, nor below 26M |
| `Clock.TightExactly` | platform/hal/hal_sysfreq.c:34-54 | after a request the frequency is the highest vote if and only if the request is not lower, or comes from the top user, or another user still votes for the current frequency, or that is 26M |
| `Clock.TopExactly` | platform/hal/hal_sysfreq.c:34-54 | who is on top after a request, and the frequency: the caller if it asks for no less; the first to vote highest if the top user steps back and nobody votes for the frequency any more; else both stay |
| `Clock.StaleTopUser` | platform/hal/hal_sysfreq.c:37-40 | two users vote for the same frequency and step back, the later one first: nobody wants it any more, yet it stays |
| `Clock.BootIsSafe` | platform/hal/hal_cmu.c:988-1045 | boot ends in a safe state at 52M with both PLLs off |
| `Clock.Cmu.PllEnable` | platform/hal/hal_cmu.c:367-406 | powers the PLL for its first user and records the user |
| `Clock.Cmu.PllDisable` | platform/hal/hal_cmu.c:408-435 | unpowers the PLL with its last user |
| `Clock.Cmu.LowFreqModeEnable` | platform/hal/hal_cmu.c:877-887 | the six calls are the specified switch to the slow clock |
| `Clock.Cmu.LowFreqModeDisable` | platform/hal/hal_cmu.c:889-899 | the six calls are the specified switch to the fast clock |
| `Clock.Cmu.HighestVote` | platform/hal/hal_sysfreq.c:41-48 | finds the first user with the highest vote |
| `Clock.Cmu.HalSysfreqReq` | platform/hal/hal_sysfreq.c:13-59 | records the vote and sets the frequency as specified; bad arguments are refused without effect |
| `Clock.Cmu.AppSysfreqReq` | apps/common/app_utils.c:12-35 | the request with the clock switches around it |
| `ClockThreads.NextExact` | apps/common/app_utils.c:12-35 | with any threads anywhere inside app_sysfreq_req, a step leaves the clock safe if and only if it does not move the mux off the audio PLL, or take SYS off it, at a fast frequency, nor raise the frequency before mux and SYS are on the audio PLL, nor move the mux while a PLL is off |
| `ClockThreads.RunExact` | apps/common/app_utils.c:12-35 | any number of threads, any interleaving of their calls: every state is safe if and only if every step is right when it is taken |
| `ClockThreads.SerialRunsAreRight` | apps/common/app_utils.c:12-35 | requests that do not overlap, by any threads, are right step by step and come to what the requests as single steps come to |
| `ClockThreads.OvertakingIsUnsafe` | apps/common/app_utils.c:28-32 | from every safe state at a fast frequency: a thread preempted between its frequency test and the switch to the slow clock, while another asks for a fast one, leaves that frequency on the USB PLL with nobody holding the audio PLL |
| `Battery.NoOverflow` | platform/hal/hal_gpadc.c:33-46 | no intermediate result of the calibration or a conversion leaves 32 bits |
| `Battery.VoltBound` | platform/hal/hal_gpadc.c:57-72 | a conversion is less than 1 mV above and less than 3.023 mV below the exact line |
| `Battery.Watch` | apps/battery/app_battery.cpp:114-144 | any number of readings, each through conversion and handler: every reading but the first five since the 16-bit index was 0 reports, and the reported mean is less than 4 mV above and less than 13 mV below four times the average of the exact line at the last five readings |
| `Battery.Monitor.Sample` | platform/hal/hal_gpadc.c:104-108 | for any fuses and readings, one ADC interrupt: a report comes exactly when more than five readings were stored since the index wrapped, judges the mean of the last five conversions, and is within that bound when points and line are in range |
| `Battery.MeanBound` | apps/battery/app_battery.cpp:128-131 | the bound for the stored samples of any five readings |
| `Battery.ConvertExact` | platform/hal/hal_gpadc.c:33-70 | for points in order and in range the 32-bit arithmetic is exact, and only the 16-bit result can lose anything |
| `Battery.Gpadc.Calibrate` | platform/hal/hal_gpadc.c:26-55 | slope and intercept are those of the two points in wrapping 32-bit arithmetic, for any two different fuse values, computed once |
| `Battery.Gpadc.Adc2Volt` | platform/hal/hal_gpadc.c:55-72 | bad readings stay bad, others are converted and returned on 16 bits, for any two different fuse values |
| `Battery.RingStore` | apps/battery/app_battery.cpp:125 | the ring holds the latest samples by age, also when the 16-bit index wraps |
| `Battery.Measure.Mean` | apps/battery/app_battery.cpp:128-131 | the mean of the slots is the mean of the last five samples, in whatever rotation |
| `Battery.Measure.IrqHandler` | apps/battery/app_battery.cpp:114-144 | a report needs more than five samples since the index last wrapped and judges the mean of the last five |
| `Battery.JudgeMeans` | apps/battery/app_battery.cpp:133-141 | which report a mean gives, limits in any order; a mean at the power-down limit itself counts as normal |
| `Battery.NormalExactly` | apps/battery/app_battery.cpp:133-141 | with limits in order the report is normal exactly between low and high, and at the power-down limit |
| `Spi.HoldsTheLatest` | mbed/api/CircularBuffer.h:37-87 | over every series of pushes, pops and resets the buffer holds the latest pushes, at most its size, oldest first |
| `Spi.CircularBuffer.Push` | mbed/api/CircularBuffer.h:37-47 | appends; a full buffer loses its oldest element |
| `Spi.CircularBuffer.Pop` | mbed/api/CircularBuffer.h:54-62 | takes the oldest element, or false exactly when empty |
| `Spi.CircularBuffer.Empty` | mbed/api/CircularBuffer.h:68-70 | true exactly when nothing is stored |
| `Spi.CircularBuffer.Full` | mbed/api/CircularBuffer.h:76-78 | true exactly when every slot is taken |
| `Spi.CircularBuffer.Clear` | mbed/api/CircularBuffer.h:83-87 | nothing is stored afterwards |
| `Spi.NextExact` | mbed/common/SPI.cpp:71-174 | order (nothing waits for an idle peripheral, nothing is started over a running transfer, accepted transfers start in order) survives a step if and only if it neither queues a transfer whose predecessor has ended since the test, nor is an event whose callback calls transfer while one is queued or more than once |
| `Spi.RunExact` | mbed/common/SPI.cpp:71-174 | every state of a run is in order if and only if every step is right |
| `Spi.EndsExactly` | mbed/common/SPI.cpp:80-100 | the end of a transfer and an abort free the peripheral and start the oldest queued transfer if there is one; a clear empties the queue and leaves the peripheral alone; abort_all does both |
| `Spi.EverythingStarts` | mbed/common/SPI.cpp:150-174 | nobody waits for ever: as many ends as transfers are queued start them all in order, and one more leaves the peripheral idle |
| `Spi.CalmRunsAreRight` | mbed/common/SPI.cpp:71-86 | runs with no interrupt between test and queueing and no callback that calls transfer are right |
| `Spi.AcceptedStartInOrder` | mbed/common/SPI.cpp:71-174 | over right runs without clears, transfers started followed by transfers queued are the transfers accepted, in order, and none was cut off |
| `Spi.QueuedTooLate` | mbed/common/SPI.cpp:73-75 | the transfer in front ends between test and push: the second one is accepted, but however many interrupts follow it is not started, and a third overtakes it |
| `Spi.CallbackIsCutOff` | mbed/common/SPI.cpp:165-172 | a callback that calls transfer while another is queued: its transfer starts, and the dequeue at once starts the other over it |
| `Spi.Master.Transfer` | mbed/common/SPI.cpp:71-133 | uninterrupted: starts when idle, queues when busy, refuses exactly when the queue is full |
| `Spi.Master.TransferInterrupted` | mbed/common/SPI.cpp:71-133 | with an interrupt between test and queueing: the three steps of the specification, and the return code |
| `Spi.Master.DequeueTransaction` | mbed/common/SPI.cpp:150-158 | the oldest queued transfer starts, running peripheral or not; nothing happens when none is queued |
| `Spi.Master.IrqHandler` | mbed/common/SPI.cpp:162-174 | an event that ends the transfer runs its callback, which may call transfer any number of times, and then starts the oldest queued one; another changes nothing |
| `Spi.Master.AbortTransfer` | mbed/common/SPI.cpp:80-86 | ends the transfer and starts the next one |
| `Spi.Master.AbortAllTransfers` | mbed/common/SPI.cpp:96-100 | drops what is queued and ends the transfer |
| `Tone.PhaseContinuous` | apps/apptester/app_audtest.cpp:61-113 | for any series of even lengths the output of all calls together is an unbroken stretch of the repeated wave table |
| `Tone.SeriesExactly` | apps/apptester/app_audtest.cpp:61-113 | for any series of calls of any lengths and tables of any even size: the output is an unbroken stretch of the repeated table, for all tables of that size, if and only if every call that delivers anything starts at an even index |
| `Tone.CallExactly` | apps/apptester/app_audtest.cpp:76-113 | one call goes on without a break, for all tables of a size, if and only if the carried index is even or nothing is asked for |
| `Tone.OutExactly` | apps/apptester/app_audtest.cpp:76-113 | for any one table, those in use included: a call goes on without a break if and only if its first stretch, which is copied from the sample that the carried index lies in, reads the same as the table from that index on |
| `Tone.RepeatAt` | apps/apptester/app_audtest.cpp:61-113 | byte i of the repeated table is byte i modulo its size |
| `Tone.Generator.MoreData` | apps/apptester/app_audtest.cpp:61-113 | both branches fill the buffer with the specified bytes and carry the specified index |

## Left out

- IntersysLink.EndToEndDelivery: starts after open; opening or closing a channel mid-transfer resets the lists without draining them, and data pointers are taken not to wrap around to 0 when advanced.
- IntersysChannel.Channel.TxIrq: an interrupt of higher priority that sends between freeing a record and reading its `next` pointer is not modelled; sends from the callbacks are. The test and set in start_recv and the whole of send are atomic.
- IntersysChannel.Channel.RxIrq: both handlers are installed, as after open; the assertion on a missing handler is not modelled. A handler's restart is placed at the first handler call.
- The record pool is a sequence of record values with indices for pointers, so records have no addresses of their own.
- TickerSpec.RunOf: the event handler is installed, as every constructor of an event does. The drain is over before the events it handles are older than the latency bound; callbacks give no Ticker the period 0 and from some firing on set nothing that is due before the drain is over, without which the loop need not end.
- SafeQueue.RunsAreFifoExactly: sizes from 1 to 255; what the 8-bit fields make of other sizes is in `SafeQueueRing.Ring.constructor` only.
- I2cSpec.TransfersAreExact: the bus waits rather than lose a received byte, and disabling the controller clears its FIFOs and pending interrupts. Tasks are asynchronous (the busy-wait of the synchronous mode and its lock are left out), and API calls are atomic with respect to the interrupt.
- I2cMaster.Master.RecvLoop: a task's buffer is a value owned by the task; two tasks sharing a buffer are not modelled.
- The I2C DMA path, simple mode and slave mode, bus speed set-up and the trace output.
- Arbiter.Player.HandleProcess: players start and stop when asked; set-up and restart messages change neither list nor stream; the media manager's request on the last prompt's close is not modelled.
- NorFlash.Flash.EraseRange: the range lies on the chip, as the driver needs; suspend, sleep, cache and controller registers are left out.
- IrqRun.Serve: a handle is not reused after its function object has been deleted, and callers pass only handles they were given; the manager's chain array and the vector table are sequences of the class, whose chains are heap objects with arrays.
- Clock.RunIsSafe: one request at a time; several threads are in `ClockThreads.RunExact`, where a call into the PLL or frequency layer is one step because it locks out interrupts. PLLs lock at once, flash and memory clocks and the audio-resample variant are left out, as is INIT after boot except for its exact effect.
- Battery.Watch: the calibration points are in order and in range, and the exact line stays between 0 and 16000 mV at the readings; `Battery.Monitor.Sample` asks neither, only that the two fuse values differ, as the division does. Charging, levels and timers are left out.
- Spi.NextExact: one SPI object; the end of a transfer and its interrupt are one step, an interrupt comes only from a running transfer, callbacks call nothing but transfer, and one caller at a time is between test and queueing; bus format and frequency and several objects sharing the static buffer are left out.
- Tone.Generator.MoreData: the equaliser call and the trace output are left out.
- Register access helpers, codec, I2S, PCM, GPIO and cache drivers, pin mux, DMA channel choice, overlays and the bump memory pool: they would add only easy members.
- Players on queues and codecs whose code is not shown, start-up, factory mode, keys, LEDs, voice prompts and the mbed pin, bus, serial, CAN, Ethernet and file wrappers.
