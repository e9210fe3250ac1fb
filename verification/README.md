# Verification model of EM-ODP's dispatch and event-state core

This project models the parts of EM-ODP (an Event Machine on top of ODP) whose
correctness depends on interleavings, packed counters or in-place table work,
and proves what they promise.

- **Atomic groups.** `AtomicGroupModel` is the dispatch protocol as a transition
  system: any number of cores, one dispatch-lock word, two FIFO stashes, one step
  per atomic access or stash call, and the receive calls of the dispatcher's plan
  with the `event_burst_cnt` of each. `AtomicGroupLock` (lock and count),
  `AtomicGroupFifo` (arrivals to tables), `AtomicGroupOrder` (tables to EOs) and
  `AtomicGroupWork` (`event_burst_cnt` and the rest of a table) hold one inductive
  invariant, `AtomicGroupTheorems` what follows for every run, `AtomicGroupDrain` that
  every run can be continued until all accepted events are started, `AtomicGroupEarlyEnd`
  a run in which a lock is released too early and `AtomicGroupUneven` when that can
  happen, and `DispatchLock` the packed 64-bit word with the operations on it, each
  proved to be one step of the transition system.
- **Event State Verification.** `EventState` is what the code does with the packed
  counter word, `EventStateCounters` what that means for three separate counters,
  `EventOwnership` the ownership game of which the checks accept exactly the legal
  runs, `EventHeader` the operations on the event header.
- **Header initialisation.** `EventInit`: the batched, in-place forms against the
  form for one event.
- **Event groups and control events.** `EventGroupModel` is the fork-join protocol:
  apply, increment, assign, abort and the receives, one step per access of the counter
  word or pass over the notification table. `EventGroupTheorems` is what its runs keep,
  `EventGroupNotifs` which notifications are sent, `EventGroupRuns` how runs go on,
  `EventGroupCompletes` that an applied group can always come to its notifications, and
  `EventGroup` the packed word with the operations on it. `GroupCount` is the one count
  that the users of a group see; on it builds `RetvalBuffer`, the life of the
  return-value buffer of the internal control fan-out, which is `CtrlEvents`.
- **Dispatcher.** `DispatchPlan` is how a burst is cut into receive calls,
  `ReceiveLimit` where the limit of a call comes from and when the loop over it ends,
  `DispatchCalls` the calls that are made, with their callbacks and what they take off
  the event groups, `Dispatcher` the loops over the event tables.
- **Pools.** `PoolConfig` and `EventPool`: the subpool sort, best-fit allocation
  with spill, and preallocation.

`Seqs`, `EntrySeqs`, `Traces`, `U64` and `Wrappers` are what these share.

Atomic accesses are sequentially consistent. Where an operation ends in a fatal
event-state error, the model returns a verdict `ok == false` and says nothing about
the state after it. Calls that the environment decides (how many entries a stash
call moves, whether an allocation or a send succeeds, what a callback does to an
event table, when user code asks to drop the atomic context) are parameters or
actions. Arguments are checked as at `EM_CHECK_LEVEL` 3.

The atomic-group theorems assume what the program assumes: stashes are FIFO; ODP
hands out the next burst of an atomic queue only after its atomic context was given
up; the queues of a group, their priorities and their EOs' limits stay the same, and
the limits are such that the burst loops end (`DispatchPlan.BurstsEndIff`).
`DispatchLock` also assumes fewer than 2^32 outstanding events, exactly where the
64-bit addition needs it (`AddWithinField` says what happens otherwise). The
event-state results are for one operation at a time on an event: the update of the
counters and the restart of the generation are two atomic accesses, taken together
here; an allocation takes an event that is back in its pool. A revert is taken to be
legal whenever the counters accept it, also one with nothing to undo, as
`em_event_unmark_free()` is a user call (`EventOwnership.UnmatchedRevertMakesUp`).

## Promises that do not always hold

**The burst count, and the lock of an atomic group.**
`src/em_dispatcher_inline.h:634` and `:694` set `event_burst_cnt` to 0 for the
trailing partial batch of an event-group run, instead of subtracting the batch. The
comments at `src/em_atomic_group.c:533-539` and `:552-555` rely on it being 0 only
for the last batch of the burst. `DispatchPlan.EarlyZero` gives a burst of four
events in which the second of three calls already sees 0, and the third sees -1.
`em_atomic_processing_end()` goes by that count (`src/event_machine_scheduler.c:54-56`),
so `AtomicGroupEarlyEnd.EarlyReleaseBreaksOrder` is a run in which a core releases the
dispatch lock with an event left in its table, and starts that event without the lock
and after its successor. The exact condition can be checked before a table is
dispatched: every run of events of one queue and event group fits one batch, or splits
evenly into full batches, or ends the table. `DispatchPlan.BurstCountIff`: the count
is exact, and 0 only at the end, if and only if the table meets it.
`AtomicGroupWork.EarlyEndIff`: the lock can be released only with nothing left, if and
only if the table meets it. Mutual exclusion, exact counting, "no event is left
behind", the order in which events are taken and "each event is started exactly once
or dropped" hold in every run; starting events under the lock and in order is proved
for the runs whose tables all meet the condition (`AtomicGroupWork.AllEven`), and every
run that starts another table can be continued to one that starts an event without the
lock (`AtomicGroupUneven.UnevenStartsWithoutLock`). Queues that receive one event at a
time always meet it (`AtomicGroupWork.SingleReceiveAllEven`).

**The limit of a multi-receive EO.** `em_eo_create_multircv()` accepts any
`max_events` from 0 on (`src/event_machine_eo.c:236-244`), and adding a queue narrows
it to 16 bits (`src/em_eo.c:250`). `ReceiveLimit.StuckAt65536`: with 65536 the batch
loop makes no progress, on any burst of two or more events of a queue.
`ReceiveLimit.MultircvEndsIff`: the loop ends if and only if the given value is 0 or
not a multiple of 65536. The dispatcher methods require just that of the queues they
dispatch bursts of.

**The return-value buffer.** When the last handler leaves and the send of the "done"
event fails, `send_notifs()` frees that event and carries on
(`src/em_internal_event.c:502-507`): the callback never runs, and the buffer is never
freed (`RetvalBuffer.LeakingRun`). `RetvalBuffer.FreedExactlyOnceIff`: the buffer is
freed exactly once if and only if that does not happen.

**The notifications of an event group.** `em_event_group_apply()` writes the
notification table before the compare-and-swap that decides whose apply it is
(`src/event_machine_event_group.c:158-178`).
`EventGroupNotifs.WrongNotifsRun`: of two calls that overlap, one can succeed and the
other one's notifications be sent. `EventGroupNotifs.TableRightIff` is the exact
condition, for every run: an applied group has its own notifications in the table all
along if and only if no step writes different ones over those of an applied group, or
applies it while different ones are in the table. That cannot happen while at most one
core at a time is between reading that the group is free and trying to apply it
(`EventGroupNotifs.NotifiedAsOrdered`), as under the documented contract that apply
"should only be called once per group cycle"
(`include/event_machine/api/event_machine_event_group.h:186`). When two are, with
different notifications, every such run can go on to send the wrong ones
(`EventGroupNotifs.OverlapMixesUp`).

**Receives of an aborted event group.** A receive that goes on after
`em_event_group_abort()` is told from those of the next cycle by the 15-bit generation
only. `EventGroupTheorems.CheckedIff`, for every run: its end is counted if and only if
it was admitted in the present cycle or a multiple of 32768 applies ago, and the count
is there. `EventGroupRuns.OutlivingIsCounted` is such a run. The other results are for
runs in which no receive lasts that long, in particular all runs in which no abort
succeeds (`EventGroupTheorems.NeverAbortsTimely`).

## Model

| member | source | states |
|---|---|---|
| AtomicGroupTheorems.MutualExclusion | src/em_atomic_group.c:379-580 | in every run at most one core holds the dispatch lock, the lock field is 1 exactly when one does, and no core enters the dispatch with its released flag set |
| AtomicGroupTheorems.OnlyHolderTakes | src/em_atomic_group.c:271-362 | a step that takes from a stash is a step of the holder; any other step can only append to a stash |
| AtomicGroupTheorems.OnlyHolderStarts | src/em_atomic_group.c:329-362 | if every table cuts evenly, a step that starts an event is a step of the holder |
| AtomicGroupTheorems.DroppedOnlyAtEnd | src/event_machine_scheduler.c:49-63 | if every table cuts evenly, user code drops the atomic context only with nothing left of the table |
| AtomicGroupTheorems.RunEven | src/em_atomic_group.c:533-539 | while every table that is started cuts evenly, the lock is released only with nothing left of a table, and events are started in the order in which they were taken |
| AtomicGroupTheorems.UnlockFailsOnlyOnEvents | src/em_atomic_group.c:462-479 | the holder's unlock compare-and-swap succeeds iff the event count is 0, and sends it back to the dequeue iff it is positive |
| AtomicGroupTheorems.ExactCounting | src/em_atomic_group.c:242-256 | in every state the event count is stashed + counted but not yet put + taken but not yet subtracted, never negative, and the wrap field is untouched |
| AtomicGroupTheorems.NoStrandedEvents | src/em_atomic_group.c:413-531 | whenever the lock is free and events are counted or stashed, some core will still look at the lock before it returns |
| AtomicGroupTheorems.NothingLeftBehind | src/em_atomic_group.c:592-686 | when every core is outside the dispatch, lock and count are 0 and both stashes are empty |
| AtomicGroupDrain.CanDrain | src/em_atomic_group.c:592-686 | every run of any number of cores can be continued, by accesses of the cores alone and without new arrivals, to where every core is outside and every accepted event has been started exactly once |
| AtomicGroupDrain.CoreComesOut | src/em_atomic_group.c:271-531 | with nobody on the way to a stash, a core that is left alone drains what it has to and comes out |
| AtomicGroupDrain.OneDequeue | src/em_atomic_group.c:271-317 | in every run, if both stashes give what they have, one dequeue takes the first 32 of the hi-prio entries followed by the lo-prio entries, or all of them |
| AtomicGroupDrain.TablesBounded | src/em_atomic_group.c:271-317 | in every run no event table and no burst has more than 32 entries |
| AtomicGroupTheorems.LostExchange | src/em_atomic_group.c:413-580 | a compare-and-swap of the lock field that fails changes nothing, and the core reads the word again |
| AtomicGroupTheorems.WonExchange | src/em_atomic_group.c:413-580 | one that succeeds takes a free lock or gives it up, and leaves the event count as it is |
| AtomicGroupTheorems.FifoExactlyOnce | src/em_atomic_group.c:217-362 | if every table cuts evenly: per queue, the dispatched events are the first part of the arrivals that were not dropped, in arrival order and without repetition; over all queues they are the first part of what was taken, and the rest of that is the holder's table |
| AtomicGroupTheorems.AllDispatchedOrDropped | src/em_atomic_group.c:644-686 | when every core is outside, each arrival was dispatched exactly once or dropped, and not both; also after early releases |
| AtomicGroupTheorems.TakenInOrder | src/em_atomic_group.c:217-327 | in every run, per queue, the arrivals that were not dropped are, in order, those taken for dispatch, those stashed and those in a core's hand |
| AtomicGroupTheorems.StartedAtMostOnce | src/em_atomic_group.c:329-362 | in every run, each event that was taken is, exactly once, either started or in one core's table, has arrived and was not dropped; no other event is started |
| AtomicGroupTheorems.AllTaken | src/em_atomic_group.c:644-686 | when every core is outside, all that was accepted has been taken, in arrival order |
| AtomicGroupTheorems.AllDispatchedInOrder | src/em_atomic_group.c:644-686 | if every table cuts evenly, when every core is outside each queue's events were dispatched in arrival order, all but the dropped ones |
| AtomicGroupTheorems.DispatchGoesOn | src/em_atomic_group.c:342-362 | a core in the dispatch always has a next receive call for what is left of its table |
| AtomicGroupTheorems.DroppedIsYoungest | src/em_atomic_group.c:246-256 | events are dropped only by a failed stash put, and are then the youngest accepted ones of their queue |
| AtomicGroupTheorems.StepKeepsInv | src/em_atomic_group.c:644-686 | every step of every core keeps the whole invariant: lock, count, order, conservation, plans |
| AtomicGroupTheorems.RunInv | src/em_atomic_group.c:644-686 | the invariant holds in every state of every run, for any number of cores |
| AtomicGroupTheorems.InitInv | src/event_machine_atomic_group.c:100-104 | a new group, with a word of wrap protection and zeros, satisfies the invariant |
| AtomicGroupLock.StepKeepsCount | src/em_atomic_group.c:242-315 | no step breaks the exact count: what a step adds to the word it adds to the counted or stashed entries |
| AtomicGroupLock.LockMoves | src/em_atomic_group.c:388-576 | how each step moves the lock field, and with it who holds |
| AtomicGroupLock.StepKeepsHolder | src/em_atomic_group.c:413-580 | every step keeps "at most one holder" and "locked iff held", through hand-off and retake |
| AtomicGroupLock.StepKeepsFlags | src/em_atomic_group.c:489-580 | the released flag is set only between the hand-off and ag_unlock() |
| AtomicGroupLock.StepKeepsNotStranded | src/em_atomic_group.c:413-531 | no step leaves counted events behind a free lock without a core committed to look at it |
| AtomicGroupFifo.ScheduleConserves | src/em_atomic_group.c:618-643 | events handed out by the scheduler join the end of their queue's flow |
| AtomicGroupFifo.AcquireConserves | src/em_atomic_group.c:648-672 | the fast path keeps the order: its burst goes ahead of nothing of its queue |
| AtomicGroupFifo.EnqPutConserves | src/em_atomic_group.c:246-249 | a put, also a partial one, moves a burst to the end of the stash without changing the order of its queue |
| AtomicGroupFifo.EnqUncountConserves | src/em_atomic_group.c:248-256 | dropping what did not fit removes exactly that tail from what is accepted |
| AtomicGroupFifo.TailIsYoungest | src/em_atomic_group.c:248-256 | the tail that did not fit is the end of its queue's flow |
| AtomicGroupFifo.DeqHiConserves | src/em_atomic_group.c:288-293 | taking from the hi-prio stash keeps each queue's order |
| AtomicGroupFifo.DeqLoConserves | src/em_atomic_group.c:296-303 | taking from the lo-prio stash behind hi-prio entries keeps each queue's order |
| AtomicGroupOrder.StepMoves | src/em_atomic_group.c:271-362 | a step takes events to the end of its core's table and starts them from the front of it |
| AtomicGroupOrder.StepKeepsTakenOnce | src/em_atomic_group.c:271-362 | no step loses or repeats an event between being taken and being started |
| AtomicGroupOrder.StepKeepsStartedInOrder | src/em_atomic_group.c:342-361 | under the lock, what is started continues the order in which it was taken |
| AtomicGroupWork.EarlyEndIff | src/event_machine_scheduler.c:54-56 | for every table: event_burst_cnt is 0 in a receive only when nothing is left of the table, if and only if the table cuts evenly |
| AtomicGroupWork.NewWorkEvenIff | src/em_dispatcher_inline.h:617-639 | the plan for a table has no early 0 if and only if the table cuts evenly |
| AtomicGroupWork.StepKeepsEven | src/event_machine_scheduler.c:49-63 | no step of a run of evenly cut tables releases the lock with events left |
| AtomicGroupWork.StepKeepsWorksFit | src/em_atomic_group.c:342-361 | the receive calls still to make always add up to the rest of the table |
| AtomicGroupWork.SingleReceiveAllEven | src/em_dispatcher_inline.h:788-844 | a group of queues that receive one event at a time meets the condition in every run |
| AtomicGroupEarlyEnd.EarlyReleaseBreaksOrder | src/em_atomic_group.c:552-579 | a run from the initial state in which the lock is released with an event left: that event is started without the lock, which another core holds, and after a later event of its queue |
| AtomicGroupUneven.UnevenStartsWithoutLock | src/event_machine_scheduler.c:49-63 | every run that starts a table that does not cut evenly can be continued from there to a state in which nobody has the lock, and the core starts an event |
| DispatchLock.PackUnpack | src/em_atomic_group_types.h:56-70 | the 64-bit word and its three fields are one-to-one |
| DispatchLock.UnpackPack | src/em_atomic_group_types.h:56-70 | the three fields and the 64-bit word are one-to-one |
| DispatchLock.UnpackInjective | src/em_atomic_group.c:388-393 | comparing words in a compare-and-swap is comparing all three fields |
| DispatchLock.AddWithinField | src/em_atomic_group.c:242-243 | the 64-bit add changes the event count only, exactly while the sum is below 2^32; otherwise the wrap field changes |
| DispatchLock.SubWithinField | src/em_atomic_group.c:313-315 | the 64-bit subtract of counted events changes the event count only |
| DispatchLock.AtomicGroup.constructor | src/event_machine_atomic_group.c:100-104 | a new group represents the initial state of the protocol |
| DispatchLock.AtomicGroup.AcquireIdle | src/em_atomic_group.c:379-394 | succeeds iff the word is exactly unlocked and empty; one step of the protocol |
| DispatchLock.AtomicGroup.AddToCount | src/em_atomic_group.c:237-243 | counting before the put is one step of the protocol |
| DispatchLock.AtomicGroup.PutInStash | src/em_atomic_group.c:232-246 | the put into the stash of the queue's priority, also a partial one, is one step of the protocol |
| DispatchLock.AtomicGroup.TakeBackCount | src/em_atomic_group.c:248-256 | taking a failed tail off the count and dropping it is one step of the protocol |
| DispatchLock.AtomicGroup.LoadWord | src/em_atomic_group.c:420-422 | the load of a compare-and-swap loop is one step of the protocol |
| DispatchLock.AtomicGroup.TrylockExchange | src/em_atomic_group.c:423-435 | the trylock compare-and-swap takes the lock iff the swapped-out word had it free; one step of the protocol |
| DispatchLock.AtomicGroup.GetHiPrio | src/em_atomic_group.c:288-293 | the hi-prio stash get is one step of the protocol |
| DispatchLock.AtomicGroup.GetLoPrio | src/em_atomic_group.c:295-303 | the lo-prio stash get, behind what was already taken, is one step of the protocol |
| DispatchLock.AtomicGroup.SubtractTaken | src/em_atomic_group.c:312-317 | subtracting what was taken, or going to the unlock if that was nothing, is one step of the protocol |
| DispatchLock.AtomicGroup.GiveToEo | src/em_atomic_group.c:346-361 | starting the planned receive with the first entries of the table is one step of the protocol |
| DispatchLock.AtomicGroup.EndDispatch | src/em_atomic_group.c:462-489 | entering ag_unlock(), with the released flag reset on the released path, is one step of the protocol |
| DispatchLock.AtomicGroup.EndProcessing | src/event_machine_scheduler.c:49-63 | enters the release exactly when event_burst_cnt is 0 and the lock is not yet released, whatever is left of the table; otherwise nothing changes |
| DispatchLock.AtomicGroup.HandOut | src/em_atomic_group.c:644-648 | a scheduled burst enters the dispatch; one step of the protocol |
| DispatchLock.AtomicGroup.ReleaseExchange | src/em_atomic_group.c:564-579 | freeing the lock in mid-dispatch, keeping the count, is one step of the protocol |
| DispatchLock.AtomicGroup.UnlockExchange | src/em_atomic_group.c:462-478 | the normal unlock succeeds iff the event count is 0; one step of the protocol |
| DispatchLock.AtomicGroup.ReloadAfterRelease | src/em_atomic_group.c:495-514 | after a hand-off the core leaves iff the lock is taken or nothing is counted; one step of the protocol |
| DispatchLock.AtomicGroup.RetakeExchange | src/em_atomic_group.c:516-530 | taking the lock back for the events behind it is one step of the protocol |
| EventState.PackUnpack | src/em_event_types.h:117-125 | the 64-bit counter word and its four fields are one-to-one |
| EventState.UnpackPack | src/em_event_types.h:117-125 | the four fields and the 64-bit counter word are one-to-one |
| EventState.Em2usrOk | src/em_event_state.c:551-562 | the check after an update for the user: EM owns some but not all of the references |
| EventState.Usr2emOk | src/em_event_state.c:664-679 | the check after an update for EM: EM owns at most all of the references, and the handle is of the generation, or references are in use |
| EventStateCounters.SubFields | src/em_event_state.c:535-536 | a 64-bit subtract that fits each field is the field-wise subtract |
| EventStateCounters.AddFields | src/em_event_state.c:647-648 | a 64-bit add that fits the lower fields is the field-wise add |
| EventStateCounters.CountsOf | src/em_event_state.c:551-552 | the signed 16-bit counts that the checks compare are the reference and send counts |
| EventStateCounters.GenMovesOn | src/em_event_state.c:653-662 | a generation that reaches EVGEN_MAX restarts at EVGEN_INIT and nothing else changes |
| EventStateCounters.GenMovesBack | src/em_event_state.c:641-649 | a generation that is reverted below EVGEN_INIT goes back to the one before the restart and nothing else changes |
| EventStateCounters.TakeSpec | src/em_event_state.c:776-824 | allocation and referencing are accepted while the references fit, add one to the user side, and refresh the handle |
| EventStateCounters.DispatchSpec | src/em_event_state.c:527-570 | a dispatch to the user is accepted iff EM owns a reference |
| EventStateCounters.SendSpec | src/em_event_state.c:628-692 | a send is accepted iff the user side owns a reference and the handle is current; reserved field and generation range are kept |
| EventStateCounters.FreeSpec | src/em_event_state.c:628-692 | a free is accepted iff the user side owns a reference and the handle is current |
| EventStateCounters.SendRevertSpec | src/em_event_state.c:1046-1056 | a send is reverted iff EM owns a reference and the handle is of the generation before |
| EventStateCounters.FreeRevertSpec | src/em_event_state.c:961-968 | a free is reverted iff the references still fit and the handle is of the generation before |
| EventStateCounters.SendRevertIsInverse | src/em_event_state.c:1034-1056 | a send and its revert give back the very same word and accept the original handle, also across the generation restart |
| EventStateCounters.FreeRevertIsInverse | src/em_event_state.c:952-968 | a free and its revert give back the very same word and accept the original handle, also across the generation restart |
| EventStateCounters.EvinitExtCombines | src/em_event_state.c:499-524 | initialising an external event in one store is initialising it and passing it to the user |
| EventStateCounters.UpdateExtFields | src/em_event_state.c:884-895 | the combined constant, itself a wrapped difference, adds one to the generation and one reference |
| EventStateCounters.UpdateExtSpec | src/em_event_state.c:881-931 | the combined update is accepted while the references fit, moves the generation on and adds one reference |
| EventStateCounters.AllocSendDispatchSpec | src/em_event_state.c:854-871 | what allocate, send, dispatch one after the other do to the counters and handles |
| EventStateCounters.HeldCounts | src/em_event_state.c:551-552 | the word yields the reference and send counts it holds |
| EventStateCounters.UpdateExtCombines | src/em_event_state.c:854-931 | the combined update has the verdict of allocate, send, dispatch one after the other, and when accepted the same counters and handles |
| EventOwnership.ApplyIsMove | src/em_event_state.c:527-692 | each operation's check passes iff the move is legal in the ownership game, and the header then holds the new owners, the flag for references included |
| EventOwnership.RunAccepted | src/em_event_state.c:527-824 | a whole run of operations passes all checks iff every move in it is legal, also across the first reference and allocations that restart the counters |
| EventOwnership.ReferencesConserved | src/em_event_state.c:551-562 | after an accepted run in which restarting allocations take events with no reference left, the counts are what was allocated, referenced, freed, given to EM and given back, a revert counting as giving back whether or not there was anything to undo |
| EventOwnership.NoneMadeUpIff | src/em_event_state.c:961-968 | an accepted run has made up a reference if and only if it reverted more frees than it had |
| EventOwnership.RevertsLeaveNoTrace | src/em_event_state.c:1129-1156 | if every revert directly follows the send or free that it undoes, the run leaves the very same header as without all that, and no reference is lost or made up |
| EventOwnership.CancelledPlays | src/em_event_state.c:961-968 | leaving out transfers and the reverts right after them changes neither who owns what nor that the run is accepted |
| EventOwnership.UnmatchedRevertMakesUp | src/em_event_state.c:961-968 | the limit: a revert with nothing to undo is accepted by the counters, and makes up a reference |
| EventOwnership.HandleAcceptedIff | src/em_event_state.c:664-685 | the handle that an allocation or dispatch of a run returned is accepted after any further accepted operations iff the user side owns a reference, and references are in use or a multiple of 57343 lies between the transfer counts |
| EventOwnership.HandleInRun | src/em_event_state.c:664-685 | over whole runs: with the handle that the operation at one place returned, the run goes on at a later place iff the user side owns a reference there, and references are in use or the transfers in between are a multiple of 57343 |
| EventOwnership.TransfersCounted | src/em_event_state.c:653-662 | between two restarts the transfers are the sends and frees less the reverted ones |
| EventOwnership.SharedRunAccepted | src/event_machine_event.c:1827-1839 | allocate, reference, free, free with one handle is accepted, and leaves no reference |
| EventOwnership.RestartForgetsHandles | src/em_event_state.c:776-780 | the limit: after an allocation that restarts the counters a handle of the time before is accepted again |
| EventOwnership.StaleHandleRejected | src/em_event_state.c:664-685 | in a run, a handle that is 1 to 57342 transfers old is rejected, also across the generation restart, unless references are in use |
| EventOwnership.PeriodOldHandleAccepted | src/em_event_state.c:653-662 | the limit: a handle of exactly one generation period ago is accepted again |
| EventOwnership.GenOfEqual | src/em_event_state.h:119-122 | generations are equal iff a multiple of the period lies between them |
| EventOwnership.GenOfNext | src/em_event_state.c:653-662 | the generation after k + 1 transfers is the next one after that of k, and back |
| EventHeader.EventHdr.EsvEvinit | src/em_event_state.c:462-477 | stores the initial counters and a handle of the initial generation |
| EventHeader.EventHdr.EsvEvinitExt | src/em_event_state.c:499-524 | stores the counters after "sent, then dispatched" and the matching handle |
| EventHeader.EventHdr.EsvEm2usr | src/em_event_state.c:527-570 | subtracts, refreshes the handle unless the event has references, and checks |
| EventHeader.EventHdr.EsvUsr2em | src/em_event_state.c:628-692 | adds, restarts the generation at its maximum, and checks against the generation before |
| EventHeader.EventHdr.EsvUsr2emRevert | src/em_event_state.c:628-692 | subtracts, undoes a generation restart, and checks against the generation it is back at |
| EventHeader.EventHdr.EsvUpdateExt | src/em_event_state.c:881-931 | the combined update in place |
| EventHeader.EventHdr.EvstateAlloc | src/em_event_state.c:776-786 | restarts the counters without preallocation, otherwise takes one more reference for the user and keeps the generation going |
| EventHeader.EventHdr.EvstateRef | src/em_event_state.c:818-824 | accepted while the references fit; a further reference keeps the handle as it is |
| EventHeader.EventHdr.EvstateFree | src/em_event_state.c:952-959 | accepted iff the user side owns a reference and the handle is current |
| EventHeader.EventHdr.EvstateFreeRevert | src/em_event_state.c:961-968 | restores reference and generation under the original handle |
| EventHeader.EventHdr.EvstateUsr2em | src/em_event_state.c:1034-1044 | accepted iff the user side owns a reference and the handle is current; ODP events pass unchecked |
| EventHeader.EventHdr.EvstateUsr2emRevert | src/em_event_state.c:1046-1056 | takes the sent reference back under the original handle; ODP events pass unchecked |
| EventHeader.EventHdr.EvstateEm2usr | src/em_event_state.c:990-1000 | accepted iff EM owns a reference; ODP events pass unchecked |
| EventHeader.EventHdr.EvstateInit | src/em_event_state.c:826-833 | initial counters, for an external event those after its dispatch to the user |
| EventHeader.EventHdr.EvstateUpdate | src/em_event_state.c:933-950 | one more reference, for an external event with the combined update |
| EventInit.EvhdrInitPkt | src/em_event_inline.h:387-441 | a packet known to EM keeps its header and refreshes its state, a new one is initialised |
| EventInit.EventInitOdp | src/em_event_inline.h:775-870 | the same by event type; timeouts only take the generation of their header |
| EventInit.DeferredInit | src/em_event_inline.h:492-535 | updating the state first and resetting the other fields in a later pass gives the same header |
| EventInit.NewPacketIsUsers | src/em_event_inline.h:400-440 | a packet that enters EM is the user's with one reference and a current handle, of the generation that its pool goes on with or of the initial one: sending or freeing it is accepted, dispatching it is not |
| EventInit.NewPacketIsReset | src/em_event_inline.h:400-440 | a packet new to EM gets its type, event group, flags and user area reset, with event-state verification and without, and its own pointer back |
| EventInit.KnownIsHandedOn | src/em_event_inline.h:790-830 | a buffer or known packet is handed on with its pointer and a handle with which a send or free passes exactly if the user side then owns a reference; from outside it is accepted exactly if EM owned one |
| EventInit.OthersKeepTheirHeader | src/em_event_inline.h:775-870 | a timeout gets the generation of its header and keeps its pointer; other events, and known ones without event-state verification, are left alone |
| EventInit.PassAll | src/em_event_inline.h:462-490 | the first pass refreshes known packets in place and lists exactly the others, with their raw handles still in the table |
| EventInit.StateInitAll | src/em_event_inline.h:508-525 | the state pass looks pools up by raw handles that are not yet overwritten, also when both tables are one |
| EventInit.FinishAll | src/em_event_inline.h:526-535 | the last pass resets the other fields of exactly the listed headers |
| EventInit.PlainInitAll | src/em_event_inline.h:494-506 | the pass without event-state verification |
| EventInit.EvhdrInitPktMulti | src/em_event_inline.h:445-536 | for distinct headers the batched form gives the headers, handles and verdict of one by one, also when both tables are the same array |
| EventInit.EventInitBufMulti | src/em_event_inline.h:908-930 | the same for buffers |
| EventInit.TypeRun | src/em_event_inline.h:955-962 | exactly the leading events of one type |
| EventInit.InitLeadingRun | src/em_event_inline.h:955-990 | the whole leading run of packets or buffers, and nothing for other types, is initialised as one by one; the rest of both tables and of the headers is left alone |
| EventInit.InitRest | src/em_event_inline.h:991-997 | the events after the leading run, one by one |
| EventInit.EventInitOdpMulti | src/em_event_inline.h:947-998 | the batched form gives the headers, handles and verdict of one by one, for mixed types, also in place |
| EventGroupTheorems.StepKeepsInv | src/em_event_group.h:116-272 | every access of every core keeps the counter invariant, unless a receive outlives a period of generations |
| EventGroupTheorems.RunInv | src/em_event_group.h:116-272 | the invariant holds in every state of every such run, over any number of applies and aborts |
| EventGroupTheorems.CountsExact | src/em_event_group.h:116-272 | the post-count is the pre-count plus the receives in progress of the present cycle; what was applied and incremented is finished, in progress or to come |
| EventGroupTheorems.AdmittedIsCounted | src/em_event_group.h:196-212 | a receive that was admitted passes the post-check if and only if it is of the cycle that the group is in; otherwise it ends without effect |
| EventGroupTheorems.CheckedIff | src/em_event_group.h:196-212 | in every run whatsoever, a receive passes the post-check if and only if the count is there and it was admitted in this cycle, or a multiple of 32768 applies ago |
| EventGroupTheorems.RunCoresOk | src/event_machine_event_group.c:172-173 | in every run whatsoever, a receive in progress has the generation of the apply in which it was admitted |
| EventGroupTheorems.NeverAbortsTimely | src/event_machine_event_group.c:365-395 | in a run in which no abort succeeds, every receive in progress is of the present cycle, so that the other results hold without condition |
| EventGroupTheorems.CounterIsCount | src/event_machine_event_group.c:149-178 | seen from outside the counters are one count: each successful exchange is one apply, increment, end of a receive or abort of it, nothing else changes it, and the notifications go to the one that ends the last receive |
| EventGroupRuns.OutlivingIsCounted | src/em_event_group.h:196-212 | a run in which a receive goes on over 32768 aborts and applies: its end is counted for the new cycle, whose notifications are sent with none of its events received |
| EventGroupTheorems.NotifiedOncePerApply | src/em_event_group.h:247-265 | as many notifications were obtained as there were applies that succeeded and were not aborted, less the one still applied |
| EventGroupTheorems.NotifiedAfterLastReceive | src/em_event_group.h:247-271 | notifications are obtained in the step that ends the last receive of an applied group: nothing of the cycle is in progress and all that was counted is finished |
| EventGroupTheorems.DoneMeansAllFinished | src/em_event_group.h:247-265 | the group is done iff everything applied and incremented has finished, or was given up by an abort |
| EventGroupCompletes.GroupCompletes | src/em_event_group.h:116-272 | in every run with an applied group and a free core, events of its generation that arrive in any portions that add up to what the group expects are all admitted and counted, and the notifications are sent |
| EventGroupCompletes.CanAlwaysComplete | src/em_event_group.h:116-272 | from every applied group with a free core, unless a receive is about to abort it, the run can go on to the notifications |
| EventGroupCompletes.AdmittedIff | src/em_event_group.h:116-131 | arriving events are admitted exactly if the group is applied, they are of its generation, and it still counts them |
| EventGroupCompletes.AssignedIff | src/event_machine_event_group.c:339-350 | the group is assigned exactly if it is applied and still counts the events of the receive |
| EventGroupCompletes.IncrementedIff | src/event_machine_event_group.c:208-228 | a receive may increment exactly if the group is applied, in its generation, and neither count overflows |
| EventGroupCompletes.AppliedIff | src/event_machine_event_group.c:148-156 | the group can be applied exactly if it is not; the apply of an applied group is refused and changes nothing |
| EventGroupCompletes.AbortedIff | src/event_machine_event_group.c:379-390 | an abort is too late exactly if the group is not applied; a receive that called it goes on |
| EventGroupCompletes.ExchangedCounts | src/em_event_group.h:153-159 | what each exchange leaves of the two counts, the flag and the generation, when the word is as it was read |
| EventGroupCompletes.LostExchange | src/em_event_group.h:153-159 | an exchange that fails changes nothing, and the core reads the word again |
| EventGroupNotifs.NotifiedAsOrdered | src/em_event_group.h:247-271 | while at most one core at a time has read that the group is free and not yet tried to apply it, the notifications obtained are those of the successful applies that were not aborted, one for one and in order |
| EventGroupNotifs.OverlapMixesUp | src/event_machine_event_group.c:149-178 | every run that comes to two cores past their load with different notifications, one able to apply the group and one about to write, can be continued to one that sends the wrong notifications |
| EventGroupNotifs.TableRightIff | src/event_machine_event_group.c:149-178 | for every run: an applied group has its own notifications in the table all along if and only if no step writes different ones over those of an applied group, or applies it with different ones in the table |
| EventGroupNotifs.SentAsOrdered | src/em_event_group.h:247-271 | while no such step is taken, the notifications obtained are those ordered |
| EventGroupNotifs.OneNeverMixes | src/event_machine_event_group.c:149-178 | at most one core past its load: no such step is taken |
| EventGroupNotifs.WrongNotifsRun | src/event_machine_event_group.c:149-178 | from any start with two cores, a run at whose end one apply succeeded with notifications m and the group sent n |
| EventGroup.UnpackPack | src/em_event_group_types.h:66-79 | the four fields and the 64-bit word are one-to-one |
| EventGroup.PackUnpack | src/em_event_group_types.h:66-79 | the 64-bit word and its four fields are one-to-one |
| EventGroup.EventGroupElem.constructor | src/event_machine_event_group.c:84-95 | a created group represents the initial state of the protocol, with the generation it had |
| EventGroup.EventGroupElem.PreCheck | src/em_event_group.h:144-151 | load and check: admitted iff the pre-count suffices, the group is applied and the generations match; one step of the protocol |
| EventGroup.EventGroupElem.PreExchange | src/em_event_group.h:153-159 | taking the events off the pre-count is one step of the protocol |
| EventGroup.EventGroupElem.AssignCheck | src/event_machine_event_group.c:337-349 | load and check: refused iff the group is not applied or the pre-count does not suffice; one step of the protocol |
| EventGroup.EventGroupElem.AssignExchange | src/event_machine_event_group.c:351-359 | taking the events off the pre-count makes the group the core's current one; one step of the protocol |
| EventGroup.EventGroupElem.IncCheck | src/event_machine_event_group.c:208-228 | load and check: accepted iff the group is applied, the generations match and neither count overflows; one step of the protocol |
| EventGroup.EventGroupElem.IncExchange | src/event_machine_event_group.c:230-237 | raising both counts is one step of the protocol |
| EventGroup.EventGroupElem.PostCheck | src/em_event_group.h:230-242 | load and check: passes iff the generations match and the post-count suffices; one step of the protocol |
| EventGroup.EventGroupElem.PostCopyTable | src/em_event_group.h:247-258 | the table is copied when the post-count would become 0, and the limit never cuts it; one step of the protocol |
| EventGroup.EventGroupElem.PostExchange | src/em_event_group.h:244-271 | taking the events off the post-count; the core that brings it to zero, and only that one, gets the notifications it copied |
| EventGroup.EventGroupElem.Apply | src/event_machine_event_group.c:127-144 | the argument checks: accepted iff the count is in range, the group exists, and the notifications are few enough and each sound; otherwise nothing changes |
| EventGroup.EventGroupElem.CheckNotifTbl | src/em_internal_event.c:542-559 | accepts iff there are at most six notifications and each of them is sound |
| EventGroup.EventGroupElem.ApplyCheck | src/event_machine_event_group.c:149-156 | load and check: refused iff the group is applied; one step of the protocol |
| EventGroup.EventGroupElem.ApplyWriteTable | src/event_machine_event_group.c:158-164 | the notification table is written before the exchange; one step of the protocol |
| EventGroup.EventGroupElem.ApplyExchange | src/event_machine_event_group.c:166-178 | setting both counts and moving the generation on, for the word that was loaded; one step of the protocol |
| EventGroup.EventGroupElem.AbortCheck | src/event_machine_event_group.c:381-392 | load and check: too late iff the group is not applied; one step of the protocol |
| EventGroup.EventGroupElem.AbortExchange | src/event_machine_event_group.c:394-406 | zeroing the counts makes the group ready, and no longer the caller's current one; one step of the protocol |
| CtrlEvents.SendCoreCtrlEvents | src/em_internal_event.c:198-293 | all events are sent exactly if nothing fails; otherwise those before the first send that fails, or none if an allocation does; each event is sent to its thread of the mask, freed once, or (the caller's only) left to the caller; the result is the number of threads minus the number sent, on every exit |
| RetvalBuffer.NoUseAfterFree | src/em_eo.c:1318-1339 | in every interleaving the buffer is freed at most once and not touched afterwards |
| RetvalBuffer.WhoFrees | src/em_eo.c:1220-1226 | with all requests sent only the done callback frees; otherwise whoever brings free_at_zero to zero |
| RetvalBuffer.FreedExactlyOnceIff | src/em_eo.c:1318-1339 | when nothing more can happen the buffer was freed exactly once, except that it is never freed if all requests were sent and the send of the done event failed |
| RetvalBuffer.RunsEnd | src/em_eo.c:1165-1234 | no run goes on for ever: with n cores it has at most 6n + 6 steps, so every run comes to where nothing more can happen |
| RetvalBuffer.StepDescends | src/em_eo.c:1165-1234 | every step leaves fewer steps to be made |
| RetvalBuffer.SucceedsIff | src/em_eo.c:1202-1234 | the setup comes to send every request exactly if each of its own steps succeeds |
| RetvalBuffer.DoneLostBy | src/em_internal_event.c:487-512 | the step that loses the done event is that of the last handler, when its send fails |
| RetvalBuffer.LeakingRun | src/em_internal_event.c:502-507 | a run at whose end the buffer was not freed |
| RetvalBuffer.StepKeepsInv | src/em_eo.c:1200-1226 | every step of the setup, the handlers and the done callback keeps the share count of the buffer |
| RetvalBuffer.RunInv | src/em_eo.c:1165-1234 | the invariant holds in every state of every run, for any number of cores |
| RetvalBuffer.SetupKeepsBuffer | src/em_eo.c:1217-1226 | the error path subtracts the shares of what was not sent and its own one, and frees iff that was all |
| RetvalBuffer.HandlerKeepsBuffer | src/em_eo.c:1334-1339 | a handler that subtracts its share frees iff it was the last |
| RetvalBuffer.HandlerKeepsGroup | src/em_event_group.h:283-299 | the done event is sent, or freed if its send fails, when the last handler leaves, and never after an abort |
| DispatchPlan.RunEndIs | src/em_dispatcher_inline.h:497-519 | the end of a run is the only place up to which all events join the first and the next does not |
| DispatchPlan.BurstDelivered | src/em_dispatcher_inline.h:588-721 | the batches are non-empty and, one after the other, are the burst in order |
| ReceiveLimit.MultircvEndsIff | src/em_dispatcher_inline.h:605-630 | the batch loop over a run of any length ends if and only if the max_events given at creation is 0 or not a multiple of 65536 |
| ReceiveLimit.QueueMaxEvents | src/em_eo.c:250-250 | the limit is the value given, 32 for 0, and from 65536 on what 16 bits keep of it |
| ReceiveLimit.StuckAt65536 | src/em_eo.c:250-250 | with max_events 65536 no pass moves the index, and the guard stays true |
| ReceiveLimit.LeavesIff | src/em_dispatcher_inline.h:617-624 | a batch loop ends just when its batches are not empty |
| DispatchPlan.BurstsEndIff | src/event_machine_eo.c:236-244 | the same for the queue made from the given max_events: the condition on its limit that the burst loops need is exactly that they end |
| DispatchPlan.BurstFits | src/em_dispatcher_inline.h:609-645 | every batch is within the limit, of one queue, event group and generation, and as large as these allow |
| DispatchPlan.BatchIsLargest | src/em_dispatcher_inline.h:496-519 | a call stays within its queue's limit, is for one queue and event group, and stops short of the limit only where the next event is of another queue, event group or generation of it |
| DispatchPlan.GroupsTakenOffExactly | src/em_dispatcher_inline.h:285-310 | the event-group decrements of a run add up to its length |
| DispatchPlan.BurstCountIff | src/em_dispatcher_inline.h:617-639 | event_burst_cnt is the number of undispatched events during every receive, and 0 only during the last, iff no run before the last leaves a partial batch after full ones |
| DispatchPlan.SplitsIsDivides | src/em_dispatcher_inline.h:617-630 | the condition "splits into full batches" is divisibility |
| DispatchPlan.SingleReceiveCountsExactly | src/em_dispatcher_inline.h:788-844 | for single-receive queues the count is exact and 0 exactly during the last receive |
| DispatchPlan.EarlyZero | src/em_dispatcher_inline.h:632-639 | a burst for which the count is 0 too early and then negative |
| DispatchPlan.NextSingle | src/em_dispatcher_inline.h:826-836 | a single-receive loop makes the calls of the plan with one event each |
| DispatchPlan.LoneEvent | src/em_dispatcher_inline.h:531-577 | a lone event is one call |
| DispatchPlan.NextQueue | src/em_atomic_group.c:346-361 | cutting a table where the queue changes changes no call |
| DispatchPlan.PlanFits | src/em_dispatcher_inline.h:609-645 | no batch crosses a run, exceeds the limit, or stops short of both |
| DispatchPlan.PlanTiles | src/em_dispatcher_inline.h:605-661 | the batches follow one another without gap or overlap |
| DispatchPlan.TilesDeliver | src/em_dispatcher_inline.h:605-661 | consecutive batches put together are the burst |
| DispatchPlan.TakenOffIs | src/em_dispatcher_inline.h:285-310 | what the calls take off a group between two run boundaries is the number of events between them |
| DispatchPlan.PlanCounts | src/em_dispatcher_inline.h:617-639 | the exact condition from the middle of any run on |
| DispatchCalls.PackedKeeps | src/em_dispatcher_inline.h:70-93 | packing keeps exactly the defined events, each as often as it was there, and changes nothing if all are defined |
| DispatchCalls.PackedInOrder | src/em_dispatcher_inline.h:70-93 | packing keeps the order: the packed events are those at increasing places, and all defined events' places are among them |
| DispatchCalls.EnteredIsDefined | src/em_dispatcher_inline.h:117-135 | after any enter-callbacks the EO sees no undefined event and no more than came |
| DispatchCalls.EnteredInTurn | src/em_dispatcher_inline.h:117-135 | what the EO receives comes of one callback after the other, each editing what the one before has left; with no event left none is called |
| DispatchCalls.CallSays | src/em_dispatcher_inline.h:265-311 | each call names the event group and generation of all its events, announces and takes off exactly their number, is for one queue, and runs every callback |
| DispatchCalls.PlannedCallsAccounted | src/em_dispatcher_inline.h:285-310 | the calls for a table follow one another from its start to its end, and with any callbacks take off every event group and generation exactly as many events as the table has of it |
| DispatchCalls.AccountsAddUp | src/em_dispatcher_inline.h:285-310 | calls end to end that name and count their events add up to the events of each group and generation |
| DispatchCalls.NoCallbacksAllReceived | src/em_dispatcher_inline.h:265-348 | with no callbacks the EO receives the burst, in order, over all the calls |
| Dispatcher.PackEvTbl | src/em_dispatcher_inline.h:73-93 | packs in place, within its part of the table |
| Dispatcher.DispatchEnterCb | src/em_dispatcher_inline.h:117-135 | runs the callbacks, which may answer differently each time, until none is left or no event is, within its part of the table |
| Dispatcher.Core.CountSameEvgroup | src/em_dispatcher_inline.h:496-519 | counts up to the end of the run |
| Dispatcher.Core.CallEoMultircvFn | src/em_dispatcher_inline.h:265-311 | one call, on its batch only; the rest of the burst's table stays as it was |
| Dispatcher.Core.CallEoMultircvFnNoCb | src/em_dispatcher_inline.h:327-348 | the same call without callbacks |
| Dispatcher.Core.CallEoRcvFn | src/em_dispatcher_inline.h:170-223 | one call for one event, on a copy of it |
| Dispatcher.Core.CallEoRcvFnNoCb | src/em_dispatcher_inline.h:239-259 | the same call without callbacks |
| Dispatcher.Core.MultircvBurstCb | src/em_dispatcher_inline.h:598-661 | the callback path terminates and makes exactly the planned calls |
| Dispatcher.Core.MultircvBurstNoCb | src/em_dispatcher_inline.h:663-720 | the no-callback path makes the calls that the callback path makes with no callbacks registered |
| Dispatcher.Core.MultircvBurst | src/em_dispatcher_inline.h:588-721 | either path makes exactly the planned calls |
| Dispatcher.Core.RcvBurstCb | src/em_dispatcher_inline.h:796-818 | the callback path makes one call for each event, as planned |
| Dispatcher.Core.RcvBurstNoCb | src/em_dispatcher_inline.h:820-843 | the no-callback path makes the same calls |
| Dispatcher.Core.RcvBurst | src/em_dispatcher_inline.h:788-844 | either path makes one call for each event, as planned |
| Dispatcher.Core.MultircvSingle | src/em_dispatcher_inline.h:531-577 | the form for a lone event does what the burst form does |
| Dispatcher.Core.RcvSingle | src/em_dispatcher_inline.h:733-777 | the form for a lone event does what the burst form does |
| Dispatcher.Core.DispatchEvents | src/em_dispatcher_inline.h:927-964 | all four ways agree with the plan for the burst |
| Dispatcher.Core.CountSameQueue | src/em_atomic_group.c:342-354 | counts up to the end of the entries of one queue |
| Dispatcher.Core.AgDispatchBatches | src/em_atomic_group.c:329-362 | the dequeued table is split by queue and every call is as planned for the whole table, event_burst_cnt starting from its length; with any callbacks the calls take off every event group and generation what the table has of it |
| PoolConfig.SortPoolCfg | src/em_pool.c:1645-1674 | the sorted configuration is an ascending permutation of the given one |
| PoolConfig.FindSmallest | src/em_pool.c:1653-1659 | the inner loop finds the first of the smallest |
| EventPool.Pool.FindSubpool | src/em_pool_inline.h:88-102 | the first subpool that is big enough, or none |
| EventPool.Pool.EventAllocBuf | src/em_event_inline.h:1058-1101 | fails iff no big enough subpool has a free buffer, and takes one from the smallest that has |
| EventPool.Pool.EventAllocBufMulti | src/em_event_inline.h:1106-1179 | whatever the ODP pools give, each buffer is given out once, none is lost, and only big enough ones; if they give what they have, these are min(num, all big enough free buffers), from a bigger subpool only when the smaller are empty |
| EventPool.Pool.FillFrom | src/em_event_inline.h:1129-1175 | one subpool's share, as many as it is ready to give, stored behind what is already allocated |
| EventPool.Pool.PreallocAll | src/em_pool.c:1615-1621 | the allocation loop terminates with every subpool empty |
| EventPool.Pool.PoolPrealloc | src/em_pool.c:1598-1640 | every buffer is allocated once and all are free again afterwards; fails iff there are fewer than configured |
| EventPool.PoolCreate | src/em_pool.c:2022-2102 | a new pool has the sorted configuration, and its preallocation never fails |
| EventPool.FullPoolEligible | src/em_pool.c:1611-1627 | in a new pool the smallest size can get every configured buffer |
| EventPool.EligibleZeroIff | src/em_pool.c:1615-1621 | no big enough buffer is left iff every big enough subpool is empty |
| EventPool.SameFree | src/em_pool.c:1629-1634 | when every buffer is back in its own subpool, the pool is as before |

## Left out

- ODP itself (scheduler, stashes, pools, timers, locks, packet and vector calls): only the environment assumptions above.
- Memory-order annotations: every atomic access is sequentially consistent.
- Liveness under every schedule: no fairness is assumed. What is proved is that every run can be continued, by the cores alone, to where all accepted events are started (`AtomicGroupDrain.CanDrain`) or the group's notifications are sent (`EventGroupCompletes.CanAlwaysComplete`).
- EventGroupCompletes.CanAlwaysComplete: asks for a core outside the group, which the missing events can arrive at, and that no receive of the group is about to abort it, which ends the group without notifications.
- Recorded diagnostic state (API operation, core, payload word), error-message texts, and what the program does after a fatal error.
- `evstate_em2usr_revert` and its batch form: the strict check is applied after the send count is added back, so it is not an accepted inverse.
- The table-at-a-time forms of the state updates (`*_multi` in `src/em_event_state.c`), except where the header initialisation uses them: loops over the single forms.
- `evstate_init_multi` against `evstate_init` for external events: they start from different counters on purpose.
- Vectors in the header initialisation (`evhdr_init_pktvec`, event vectors), and header fields that no modelled code reads.
- Event groups outside safe mode, and `em_event_group_apply()` of a group from within a receive of that same group.
- Event-state operations on references of one event that overlap in time, between the update and the generation restart (`src/em_event_state.c:647-662`).
- Deleting an event group and creating it again while cores still have it as their current group.
- Polling the control queue from inside an EO receive, where a current event group may still be set.
- The dispatch of core-local queues between receive calls: it uses the same loops without burst counting.
- The event type that a single-event receive gets, and what user code does during a receive other than dropping the atomic context, incrementing or ending its event group.
- The packet and vector forms of the pool allocation, ODP pool caches, statistics, pool deletion, and subpools that could not be created.
- Queue state checks, hooks, output queues, timers, chaining, handle and index conversions, CLI, configuration and start-up.
- DispatchPlan.BurstFits: for a limit of 0 the plan says one event per call (`DispatchPlan.MaxBatch`); the code then makes no batch at all, and its loop does not end (`ReceiveLimit.MultircvEndsIff`).
- Dispatcher.Core.MultircvBurstCb: requires a limit of at least 1, which by `DispatchPlan.BurstsEndIff` is exactly that its loop ends.
- Dispatcher.Core.MultircvBurstNoCb: requires the same.
- Dispatcher.Core.MultircvBurst: requires the same.
- Dispatcher.Core.DispatchEvents: requires the same of queues with bursts of two or more events.
- Dispatcher.Core.AgDispatchBatches: requires the same of queues with bursts of two or more events.
- AtomicGroupTheorems.RunInv: in the modelled runs the scheduler hands out only events of queues whose burst loops end.
- EventOwnership.ReferencesConserved: where an allocation restarts the counters, the event has no reference left; ODP allocates only what is back in its pool, which is not part of this model. That a revert undoes something is not part of its rules (`EventOwnership.NoneMadeUpIff`); the check of the recorded previous operation, an option for `em_event_unmark_send()` and `em_event_unmark_free()`, is not modelled.
- EventGroupTheorems.CountsExact: for runs in which no receive outlives 32768 applies of its group; `EventGroupTheorems.CheckedIff` says exactly what such a receive does, `EventGroupRuns.OutlivingIsCounted` is a run. The same goes for the other results there that ask for `Timely`.
- EventGroupNotifs.NotifiedAsOrdered: sufficient for what is sent; the exact condition on what is in the table is `EventGroupNotifs.TableRightIff`.
- DispatchLock.AtomicGroup.AddToCount: requires that the event count fits its 32 bits; `DispatchLock.AddWithinField` says that the sum then, and only then, stays out of the other fields.
- CtrlEvents.SendCoreCtrlEvents: the mask has at least one thread; its caller returns earlier when there are no cores.
