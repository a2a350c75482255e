# The substrate's resource ownership and IPC authority

This project models the part of RicoqOS's substrate that decides which root capability slot, page,
translation table and right to answer belongs to whom, while any kernel call may fail. It proves
what the code keeps over every run, what a failed construction leaves behind, and what its two
parsers accept.

The kernel (`Kernel.dfy`) is the environment. It has one entry point, `Kernel.Invoke`, whose outcome
is the kernel's own choice: done, out of memory, failed, or refused because the call asked for
something that is taken, out of range or not prepared. A call that is not done changes nothing. All
calls and outcomes go into a ghost log, which the contracts use to say in which order things were
tried, deleted and refused. Delivering messages and answers, and dropping a saved right when its
caller goes away, are the kernel's too (`Ipc.KernelReceive`, `Ipc.KernelReply`, `Ipc.KernelSend`,
`Ipc.KernelRevoke`). Everything else follows the source's modules:

- `FreeSlots.dfy` (module `Slots`), `Boot.dfy`, `Ownership.dfy`: the suffix allocator, first-fit
  object creation, root copies, rollback, and the ledger of owners.
- `Layout.dfy`, `VSpaces.dfy`, `SlotTracking.dfy`, `CSpaces.dfy`, `Tasks.dfy`, `Isolation.dfy`: a
  task's page layout, address space, child CSpace, its construction as one transaction, and what
  tasks can expect of each other.
- `Bits.dfy`, `PoolBitmaps.dfy`, `DeferredReplies.dfy`, `ReplyPools.dfy`, `ReplyAuthority.dfy`,
  `Messages.dfy`, `Ipc.dfy`: the 64-bit pool bitmap, saved replies, the implicit right to answer,
  message transport, and the endpoint operations.
- `Faults.dfy`, `FaultEndpoints.dfy`: the fault message format and the adapter over an endpoint.
- `BootHarness.dfy`: the streaming recogniser of the boot test.

Three kinds of statement carry the results.

1. *Step contracts.* Each operation that changes state is a method over classes. Its contract gives
   the state it leaves in the kernel, in the allocator and in its objects, and says that it is one
   step of each machine over values that it takes part in (`Ownership.Step`, `SlotTracking.ChildStep`,
   `ReplyAuthority.PortStep`, `DeferredReplies.PoolStep`, `Slots.Apply`). `Kernels.LeavesAlone` says
   which objects it may have touched, and that even these only gained something. Endpoints and reply pools carry the history of their machine as
   a ghost field.
2. *Run lemmas.* Lemmas about these machines hold for runs of any length, with the kernel choosing
   every outcome.
3. *Independent definitions.* The layout check, the tables, the fault format, the bitmap and the
   marker recogniser are each compared with a definition that does not share their code.

Where the flag of an endpoint promises less than it seems, `ReplyAuthority.AnswerIsRightIff` gives the
exact condition and `ReplyAuthority.TwoEndpointsCanCross` an example: the flag is per endpoint, the
kernel's right is per thread.

To verify everything: `dafny verify dfyconfig.toml`.

## Model

| member | source | states |
|---|---|---|
| Slots.FreeSlots.Offer | crates/substrate/src/free_slots.rs:26-36 | a slot is offered exactly while the range is not empty; the overflow branch is never taken |
| Slots.FreeSlots.Commit | crates/substrate/src/free_slots.rs:36-39 | only a successful creation advances the allocator, by one slot |
| Slots.FreeSlots.Reserve | crates/substrate/src/free_slots.rs:47-55 | a contiguous empty run is handed out if it fits, without overflow, and otherwise nothing changes |
| Slots.FreeSlots.Rewind | crates/substrate/src/free_slots.rs:67-73 | only a checkpoint within the committed suffix is restored |
| Slots.RunTracksLiveSlots | crates/substrate/src/free_slots.rs:17-73 | over every history, `[first, start)` is exactly what the owners were handed and still hold, and no live slot is handed out again |
| Slots.CheckpointIsExact | crates/substrate/src/free_slots.rs:41-73 | if no rewind went below a checkpoint, the slots since then are exactly those committed since, and rewinding restores the very state of the checkpoint |
| Ownership.StepKeepsSound | crates/substrate/src/free_slots.rs:5-14 | each public operation, successful, undone or interrupted, keeps free slots empty, grants disjoint and granted slots filled |
| Ownership.EveryRunKeepsOwnership | crates/substrate/src/boot.rs:78-111 | over every run: no slot still to be allocated holds a capability, and no slot has two owners |
| Ownership.OwnersAreNeverEvicted | crates/substrate/src/boot.rs:82-97 | grants are never withdrawn and allocation never moves back over them |
| Ownership.LeakedSlotsAreNeverReused | crates/substrate/src/boot.rs:100-111 | slots behind an interrupted rollback are lost but never become anyone's |
| Ownership.StepsLeaveOwnersAlone | crates/substrate/src/boot.rs:82-111 | no operation fills or empties a slot of another owner |
| Boot.BootInfo.CandidatesAreExact | crates/substrate/src/object.rs:37-50 | the untypeds tried are exactly the non-device ones of sufficient size within both lists, each once, in ascending order |
| Boot.CandidatesAreSuitable | crates/substrate/src/object.rs:37-50 | an untyped is tried exactly if it is ordinary memory with a description and a slot, and as large as the object of this kind |
| Boot.Bootstrap.FirstFit | crates/substrate/src/object.rs:36-74 | the retry loop tries candidates in order on the same slot, moves on only when one is used up, and ends as its last try says |
| Boot.Bootstrap.FirstFitIsExact | crates/substrate/src/object.rs:30-74 | success uses the least suitable untyped after every lower one reported that it is used up; no memory is reported exactly if all suitable ones did |
| Boot.Bootstrap.AllocateBlueprint | crates/substrate/src/object.rs:31-77 | an error leaves allocator and kernel as they were; the slot is taken exactly if the object was made; no slot is reported exactly when none is left |
| Boot.Bootstrap.CopyCap | crates/substrate/src/cspace.rs:203-222 | a root copy goes into the next slot with no more rights than asked for, or nothing changes |
| Boot.Bootstrap.CommittedSlots | crates/substrate/src/boot.rs:91-98 | exactly the slots since a checkpoint within the committed suffix |
| Boot.Bootstrap.DeleteRootSlots | crates/substrate/src/cspace.rs:225-238 | slots are deleted from the top down, stopping at the first the kernel keeps |
| Boot.Bootstrap.Rollback | crates/substrate/src/boot.rs:101-111 | slots become reusable only after all of them were emptied; an interrupted rollback does not move the allocator |
| Boot.EmptyingRestores | crates/substrate/src/boot.rs:100-111 | emptying what a construction filled gives back the root CNode of the checkpoint |
| Boot.ErrorsNameTheCall | crates/substrate/src/task.rs:237-259 | each error of a construction names the kind of kernel call that did not succeed, after which there were only deletions |
| Boot.Bootstrap.Allocate | crates/substrate/src/boot.rs:27-37 | a root object is one granted slot, or nothing |
| Boot.Bootstrap.ReserveEmptySlots | crates/substrate/src/boot.rs:83-88 | a pool gets a run of empty slots that general allocation gives up |
| Boot.Bootstrap.ImageFrame | crates/substrate/src/boot.rs:120-136 | a frame is found exactly for aligned pages of the image, and it is the one whose position is that page's |
| Layout.PowersOfTwoAreExact | crates/substrate/src/task.rs:27-29 | the first check of the layout accepts exactly the powers of two |
| Layout.Validate | crates/substrate/src/task.rs:18-73 | accepts exactly the layouts whose pages are aligned, do not overflow and are disjoint as intervals, with a 4-aligned entry in the code page; otherwise reports the first defect; the stack pointer is one past the stack page |
| Layout.CheckedPagesAreSeparate | crates/substrate/src/task.rs:36-59 | comparing page bases is enough: aligned pages with different bases share no byte, and conversely |
| Layout.FirstBadPageIs | crates/substrate/src/task.rs:36-59 | the layout error tells what is wrong with the first bad page: unaligned, past the end, or a repetition, in this order |
| VSpaces.MapTranslationTables | crates/substrate/src/vspace.rs:101-147 | for any pages and any spans each distinct table of each level is made exactly once, one root slot each; no parent is missing and no entry is taken |
| VSpaces.TablesForCovers | crates/substrate/src/vspace.rs:100-147 | afterwards every listed address has a table at each level of its walk |
| VSpaces.SharedTableIffSameSpan | crates/substrate/src/vspace.rs:119-125 | two addresses share a table exactly if they lie in the same aligned span of its level |
| VSpaces.TablesAreSpans | crates/substrate/src/vspace.rs:107-125 | at each level there are as many tables as aligned spans that an address lies in |
| VSpaces.TotalIsSpanCount | crates/substrate/src/vspace.rs:107-125 | the number of tables is the sum over the levels of the distinct aligned spans |
| VSpaces.Create | crates/substrate/src/vspace.rs:81-98 | a new address space with an ASID, exactly these tables and no page; errors say why |
| VSpaces.MapFrame | crates/substrate/src/vspace.rs:150-170 | an unmapped copy is made and mapped with the given rights, so the owner capability stays unmapped; unaligned addresses are refused before any call |
| SlotTracking.SlotTracker.MarkOccupied | crates/substrate/src/ipc_state.rs:75-85 | a usable free slot becomes occupied; anything else is refused for the first reason and changes nothing |
| SlotTracking.SlotTracker.Reserve | crates/substrate/src/ipc_state.rs:88-98 | a usable free slot becomes reserved; anything else is refused for the first reason and changes nothing |
| SlotTracking.SlotTracker.Settle | crates/substrate/src/ipc_state.rs:101-120 | commit and cancel end a reservation once; a spoiled one is reported and changes nothing |
| SlotTracking.ChildRunIsSafe | crates/substrate/src/ipc_state.rs:51-137 | over every run a filled slot is tracked as occupied, a receive path is only offered an existing empty slot that is not the null slot, and its reservation is never found spoiled |
| SlotTracking.InstallIsSafeIff | crates/substrate/src/cspace.rs:123-129 | minting before marking is safe exactly for slots that exist and are not reserved |
| SlotTracking.DroppedReservationStays | crates/substrate/src/ipc.rs:293-295 | a reservation dropped by a refused receive is never offered again |
| SlotTracking.SlotAfterReceive | crates/substrate/src/ipc.rs:299-301 | after a receive its slot can be offered again exactly if no capability was reported, whatever happened in other slots since |
| CSpaces.Validate | crates/substrate/src/cspace.rs:156-200 | accepts exactly the delegations with a source and pairwise different, non-null destinations within the CNode, fault route included |
| CSpaces.CSpace.Install | crates/substrate/src/cspace.rs:108-129 | one delegation is minted with its rights and badge and recorded, or nothing changes |
| CSpaces.CSpace.Create | crates/substrate/src/cspace.rs:83-106 | the new CNode holds exactly the delegations, the tracker agrees, no mint met a taken or missing slot, and it took one root slot |
| CSpaces.CSpace.PopulatedIsSafe | crates/substrate/src/cspace.rs:93-105 | a new CSpace is a safe start for the runs above |
| CSpaces.CSpace.ReceiveSlot | crates/substrate/src/cspace.rs:142-152 | a slot is offered exactly if it exists, is not the null slot and is free, and is then reserved; it names this CNode, its size and its tracker; one step of the child CSpace machine |
| Tasks.MapPages | crates/substrate/src/task.rs:282-309 | code is mapped with at most read rights from the shared frame, the other three pages from new frames of their own, all different, whose owner capabilities stay unmapped |
| Tasks.CreateThread | crates/substrate/src/thread.rs:72-112 | the thread gets one slot, its configuration and its registers, or an error after which the slot may be taken |
| Tasks.CreateTaskInner | crates/substrate/src/task.rs:262-344 | every step only adds; success builds exactly the configured task; errors name the call that did not succeed |
| Tasks.CreateTask | crates/substrate/src/task.rs:237-259 | atomic: the configured task in a fully occupied range of exactly the predicted number of root slots, or an error with its cause and allocator and root CNode restored, or `RollbackFailed`, exactly if a deletion failed, with nothing but new slots left over; in every case older capabilities, older objects and the right to answer are as before; no call collides |
| Tasks.BuiltThread | crates/substrate/src/thread.rs:72-112 | field by field: the thread of a new task starts at the entry with the stack pointer one past the stack page and the given arguments, in its own spaces, with its IPC buffer, its guard and its fault route |
| Tasks.BuiltPages | crates/substrate/src/task.rs:282-309 | its code can only be read, its other three pages are read and written, each from its own frame, and nothing else is mapped |
| Tasks.BuiltDelegations | crates/substrate/src/cspace.rs:108-129 | each delegated slot names the source's object, with a right only if source and delegation have it, and with the badge asked for |
| Tasks.SlotsAddUp | crates/substrate/src/task.rs:262-344 | a task costs ten root slots and one per distinct span |
| Tasks.ConstructionLeavesAlone | crates/substrate/src/task.rs:237-259 | however a construction ends, no capability to an object and no object that was there before changes, and the root CNode only gains capabilities in new slots |
| Tasks.ConfiguredTaskStays | crates/substrate/src/task.rs:168-234 | a task stays configured through whatever happens, its own mappings and receives included, which only add to its objects |
| Tasks.BuiltTaskStays | crates/substrate/src/task.rs:262-344 | a built task depends on nothing but its own three objects and capabilities to objects |
| Tasks.LaterConstructionsLeaveTask | crates/substrate/src/task.rs:237-259 | a built task stays exactly as configured through later constructions: successful, undone, or interrupted while being undone |
| Tasks.RecoveryHasTables | crates/substrate/src/task.rs:162-175 | at any time a reserved page that is still unmapped can be mapped: its tables are there and its entry is free; and it is none of the four role pages |
| Tasks.MapRecoveryFrame | crates/substrate/src/task.rs:168-194 | one slot and one read-write mapping, or nothing at all, or `RollbackFailed`, exactly if a deletion failed, which leaves no trace but in new root slots; no other object is touched |
| Isolation.EveryRunKeepsTask | crates/substrate/src/task.rs:168-259 | over every run, with constructions, recovery mappings, deferrals and receives ending in any way, on this task or others: a task that was once configured keeps its delegations, tables, four pages and thread configuration |
| Isolation.EveryRunLeavesTask | crates/substrate/src/task.rs:168-259 | while nothing acts on a task's own objects, they hold exactly what they held, whatever the task did before |
| Isolation.EveryRunLeavesBuiltTask | crates/substrate/src/task.rs:237-259 | so a task that was just built stays exactly as built |
| Isolation.TasksShareNothing | crates/substrate/src/task.rs:262-344 | tasks built one after the other have no object in common |
| Isolation.TasksAreIsolated | crates/substrate/src/task.rs:168-259 | whatever two tasks did before, what happens to one from then on, its recovery mappings and received capabilities included, changes nothing in the other |
| Bits.AndNotPopcount | crates/substrate/src/ipc.rs:451-457 | clearing a set bit lowers the population by one |
| PoolBitmaps.FreeOffsetIsLeast | crates/substrate/src/ipc.rs:439-446 | complement, mask and trailing zeros find the least clear bit below the capacity, for every capacity up to 64, and none exactly when all are set |
| ReplyPools.ReplyPool.Reserve | crates/substrate/src/ipc.rs:439-449 | hands out the least free slot and adds only that one; nothing only when the pool is full |
| ReplyPools.ReplyPool.Release | crates/substrate/src/ipc.rs:451-457 | takes back exactly this slot, and ignores slots outside the pool |
| ReplyPools.AllocateReplyPool | crates/substrate/src/ipc.rs:559-573 | a pool of 1 to 64 empty slots of its own, or an error that changes nothing |
| ReplyPools.PoolSlotStep | crates/substrate/src/ipc.rs:467-483 | filling or emptying a pool slot with a saved right is a step of the ownership ledger that touches no object |
| ReplyPools.PoolStaysGranted | crates/substrate/src/ipc.rs:559-573 | later grants take no slot from a pool |
| ReplyPools.PoolStaysBacked | crates/substrate/src/ipc.rs:559-573 | a pool keeps every saved right through constructions and mappings, successful, undone or leaking |
| ReplyPools.PoolsAreApart | crates/substrate/src/ipc.rs:559-573 | a pool set aside later has no slot in common with an earlier one |
| ReplyPools.OtherPoolStaysBacked | crates/substrate/src/ipc.rs:467-483 | what one pool does in its slots leaves the rights of every other pool alone |
| DeferredReplies.FailedSaveRestores | crates/substrate/src/ipc.rs:422-426 | a save that failed leaves the bitmap as it was |
| DeferredReplies.DeferredRepliesAreConserved | crates/substrate/src/ipc.rs:411-483 | over every history the population is deferred minus answered minus discarded, and an offered slot is neither held, lost nor filled; every operation of `Ipc.dfy` on a pool extends such a history |
| DeferredReplies.PopulationIsKnown | crates/substrate/src/ipc.rs:411-483 | the population changes by the deferrals that saved, less the answers and successful discards of held tokens, counted over the operations of the run |
| DeferredReplies.NoReissueBeforeSettled | crates/substrate/src/ipc.rs:467-483 | a slot is handed out again only after its token was answered with or discarded successfully |
| DeferredReplies.TokenKeepsItsCaller | crates/substrate/src/ipc.rs:411-474 | while a token is held it stands for the same caller, whatever happens to other slots, or for nobody once the kernel dropped the right |
| DeferredReplies.DeferredAnswerReachesItsCaller | crates/substrate/src/ipc.rs:411-474 | over every history a deferred answer reaches exactly the caller whose right was saved when its token was issued, unless the kernel dropped it |
| ReplyAuthority.RunAppends | crates/substrate/src/ipc.rs:289-429 | a run goes on with any operation whose right, if one arrives, is new |
| ReplyAuthority.MessagesAreConserved | crates/substrate/src/ipc.rs:289-429 | on any number of endpoints, messages received are answered, cleared, deferred or the one pending |
| ReplyAuthority.CountersCount | crates/substrate/src/ipc.rs:289-429 | each of these counters is the number of operations of its kind that acted in the run |
| ReplyAuthority.OneEndpointAnswersItsCallers | crates/substrate/src/ipc.rs:379-408 | while one endpoint is used alone, the implicit right is always that of the live message |
| ReplyAuthority.AnswerIsRightIff | crates/substrate/src/ipc.rs:266-295 | with several endpoints a live message can be answered exactly if nothing acted on the others since |
| ReplyAuthority.TwoEndpointsCanCross | crates/substrate/src/ipc.rs:266-295 | an example in which the condition fails |
| Messages.WithCapabilities | crates/substrate/src/ipc.rs:146-173 | a message exactly for payloads that fit, words checked first; it carries just these words and capabilities, and the rest of its arrays is zero |
| Messages.Prepare | crates/substrate/src/ipc.rs:227-238 | payload and capabilities go to the front of the buffer and nothing else changes |
| Messages.Received | crates/substrate/src/ipc.rs:240-262 | reads as many words as reported, or the first capacity error |
| Messages.MessagesArriveIntact | crates/substrate/src/ipc.rs:146-262 | through a faithful kernel the label and exactly the sent words arrive, nothing stale, and `word` succeeds exactly within the length |
| Ipc.Endpoint.Accept | crates/substrate/src/ipc.rs:302-320 | a message is accepted exactly within both capacities; otherwise its right is cleared and the flag with it |
| Ipc.Endpoint.Receive | crates/substrate/src/ipc.rs:289-321 | refused exactly while pending, leaving a supplied slot reserved; otherwise the slot ends occupied if a capability was reported and free if not, flag and right follow the outcome, and history and rights move as one step; a capability goes into the named slot only and the others stay |
| Ipc.Endpoint.TryReceive | crates/substrate/src/ipc.rs:324-363 | the same, except that an unbadged, empty, cap-free message is none, with its right left alone |
| Ipc.ReceiveLeavesAlone | crates/substrate/src/ipc.rs:289-363 | a receive changes no object but the CNode its capability went into, and nothing that was there before in that one |
| Ipc.ReceiveFillsItsSlot | crates/substrate/src/ipc.rs:576-607 | the filled slots of the child machine are those of the CNode that the receive path names |
| Ipc.StepIsWorldStep | crates/substrate/src/ipc.rs:289-429 | every endpoint operation is one step of the world of reply rights, so histories of the methods are its runs |
| Ipc.FinishSlot | crates/substrate/src/ipc.rs:500-507 | settling a reservation cannot fail: occupied if any capability was reported, free otherwise |
| Ipc.Reply | crates/substrate/src/ipc.rs:399-403 | the prepared message, words and capabilities, goes to whoever holds the implicit right, which is used up |
| Ipc.Finish | crates/substrate/src/ipc.rs:371-408 | the right is used up by an empty message with label zero |
| Ipc.Defer | crates/substrate/src/ipc.rs:411-429 | the right moves into the least free pool slot, or the pool is as before and the right is cleared; the endpoint can receive again either way; one step of the endpoint, of the pool history and of the ownership ledger |
| Ipc.AnswerDeferred | crates/substrate/src/ipc.rs:469-474 | answers the caller that the pool history and this root slot name, empties the slot and takes it back; one step of the pool history and of the ledger |
| Ipc.DiscardDeferred | crates/substrate/src/ipc.rs:477-482 | deletes and takes back, or on failure leaves slot and bit as they are and loses the token; one step of the pool history and of the ledger |
| Faults.DecodeAfterEncode | crates/substrate/src/fault.rs:283-402 | every fault is read back from its message |
| Faults.EncodeAfterDecode | crates/substrate/src/fault.rs:283-402 | whatever decodes is exactly the message of the decoded fault |
| Faults.DecodingIsExact | crates/substrate/src/fault.rs:281-402 | decoding and the message format are one bijection |
| Faults.RefusalsNameTheFirstDefect | crates/substrate/src/fault.rs:296-402 | any other message of any length is refused for its first defect in the order of the checks |
| FaultEndpoints.FaultEndpoint.Receive | crates/substrate/src/fault.rs:101-143 | accepts exactly well-formed badged faults; every other error but a pending reply leaves the endpoint ready, with the right cleared, and names the first defect; one step of the endpoint, and nothing but the right to answer changes in the kernel |
| FaultEndpoints.FaultEndpoint.Reply | crates/substrate/src/fault.rs:147-150 | an empty answer with label zero through the current right, after which the endpoint is ready; one step of the endpoint, and nothing else changes in the kernel or in the buffer |
| BootHarness.ProgressCountsMarkers | crates/substrate/tests/boot.py:132-140 | the running index is right exactly if the marker lines so far are the first markers in order and no other result was seen |
| BootHarness.LinesOfUnlines | crates/substrate/tests/boot.py:127-131 | splitting off one line after the other gives the lines of the whole stream |
| BootHarness.StrippedIsExact | crates/substrate/tests/boot.py:131-131 | one trailing carriage return is taken off a line, and nothing else |
| BootHarness.LineEndingsDoNotMatter | crates/substrate/tests/boot.py:128-131 | lines ended by a newline, with or without a carriage return before it, read as exactly these lines |
| BootHarness.PassesByItsLines | crates/substrate/tests/boot.py:128-142 | within the limit a stream of such lines passes exactly if its marker lines are the markers and no other line is a result, with either line ending |
| BootHarness.MarkersAlonePass | crates/substrate/tests/boot.py:128-142 | the markers alone, in order, pass with either line ending |
| BootHarness.ConsumeLines | crates/substrate/tests/boot.py:128-140 | the inner loop consumes all complete lines or stops at the first unwanted one |
| BootHarness.Recognise | crates/substrate/tests/boot.py:110-142 | for every split into chunks the verdict is that of the whole stream: within the limit, the markers exactly once in order, no other result |
| BootHarness.Run | crates/substrate/tests/boot.py:14-32 | the same for the harness's own markers |

## Left out

- Slots.FreeSlots.Offer: `try_allocate` is modelled in two halves around its callback, because a function value cannot make kernel calls here; callers commit only after success.
- Boot.Bootstrap.AllocateBlueprint: how much room is left in an untyped is the kernel's business; a rollback does not promise to give memory back.
- Boot.Bootstrap.Rollback: what becomes of an object whose last capability is deleted, and of mappings made through it, is not modelled; objects older than the construction are shown unchanged.
- CSpaces.CSpace.Install: stated for destinations that `validate` has accepted, the only ones it is called with; `SlotTracking.InstallIsSafeIff` says what others would do.
- VSpaces.MapTranslationTables: the architecture's spans are a parameter, and every level is taken to have a table type, so the error for a level without one is not modelled.
- VSpaces.MapFrame: memory contents and cache attributes are not modelled.
- Messages.Prepare: the kernel's packing of label, length and counts into one word is not modelled; the buffer has the capacities that the source documents (120 message words, 4 capability words).
- Ipc.Endpoint.Receive: a token that is dropped without being used keeps its flag, bit or slot set, as in the source; contracts speak of tokens that are used at most once, as ownership enforces.
- Ipc.Defer: the kernel may report a saved caller when there is none; the pool slot then stays empty, and the contract says so.
- ReplyAuthority.AnswerIsRightIff: rights to answer are told apart by the receive that brought them; scheduling and the callers' own progress are not modelled.
- BootHarness.Run: the deadline, the shutdown handshake, the exit status and the reason text are not modelled.
- Blocking and non-blocking sends, calls and notifications: direct kernel calls.
- Starting, suspending and inspecting threads, and mapping frames into the root task: direct kernel calls.
- Badge sequences: a monotone counter that stops before its last value; it would only add easy members.
- The message variant of fault errors (`MessageTooLong`) is named `FaultTooLong` and message labels are called `tag`, because the originals clash with other names or keywords.
