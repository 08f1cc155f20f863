# libdill in Dafny

libdill is a single-threaded coroutine runtime. This project models its algorithms with lasting state and proves what
they promise:

- the timer index, a pointer red-black tree with two sentinels (`RbTree`);
- the scheduler and the rendezvous channels, as a state machine with an invariant over all runs and as a class whose
  methods have the loops of the source (`Scheduler*`);
- byte stream sockets: scatter/gather lists over a flat memory, sending, and receiving with and without a receive
  buffer, for every way the kernel may split the stream (`Iolists`, `IolOps`, `IolCheck`, `Kernel`, `DirectPath`,
  `FdSpec`, `Fd`);
- the table of handles with its list of unused slots and its cache (`Handles`);
- the generator of DNS query ids, a Feistel network with cycle walking (`CycleWalk`, `Permutor`), and the walk over
  nameservers shuffled by a substitution box (`Shuffle`, `Hints`);
- streaming SHA-1 against FIPS 180-4 (`Sha1`, `Sha1Stream`) and base64 against RFC 4648 (`Base64`);
- messages framed by a suffix or a size, and HTTP request lines (`Suffix`, `Prefix`, `Http`).

`Splices`, `Powers`, `Bits` and `Numerals` hold what the proofs need about sequences and numbers; the predicate of
`Marks` is a mark behind which other modules hide definitions from the prover.

`dafny verify dfyconfig.toml` checks everything.

## How the models are built

**Timer index.** `Tree` and `Item` have the fields of the C structures. Ghost fields record, for every item, the
in-order list of its subtree and its black height; `Valid` says that both are right everywhere, that no red item has a
red parent, that the links up and down agree, that the top is black, that `nil` is black and that the values do not
decrease. The list of the `root` sentinel's subtree, without the sentinel itself, is the contents of the tree. Each
method is proved against the contents: insertion puts the item behind every item that is not larger, erasing takes out
exactly the item.

**Scheduler and channels.** A state holds the running coroutine, the queue of ready ones, the wait lists of the
half-channels, the timers (a list sorted as the tree is, see `SchedulerBlock.TimerInsertIs`) and every clause ever
issued. An API call is one step up to the point where it returns or calls `dill_wait`; a poll and the jump at the end
of `dill_wait` are steps of their own. `Inv` is the invariant of all reachable states. `SchedulerCtx.Ctx` has the same
state in fields, and its methods, with the loops of the source, are proved equal to the steps. `SchedulerBytes`
follows the bytes: a send clause keeps what its caller passed from the call on to the end of the run, so that what the
i-th completed receive on a half-channel got is what the caller of the i-th completed send passed. `SchedulerResults`
follows what callers are told: over every run, a send, receive or choose that returns, at once or after a wait,
reports success with the number of a clause if and only if exactly that clause of the call was completed
(`SchedulerAside` says what a step leaves alone meanwhile). `SchedulerEnds` says which ends meet: what is sent with
one handle of a channel is received with the other. `SchedulerEffects` and `SchedulerTurns` say what the other calls
and the polls do to the flags, the queue and the lists, and `SchedulerWakes` whom the loops in them wake.

**Sockets.** The kernel is an arbitrary finite script with one reply for each system call; when the script ends
the deadline expires. `Scatter` says what memory becomes when bytes are spread over a list, `Gather` what a list holds.
A NULL buffer is a `Hole`. Receiving is stated for every script: whatever happens, the list as it was *served* holds
the next bytes of what was buffered and what was to come, and everything else is still there. A list is served as it
is, except that the source does not look at the result of skipping a NULL buffer (`fd.c:330`): such a skip may have
been cut short. A run serves its list as it is if and only if none was (`DirectPath.DirectServes`), which is certain for
every list if enough bytes come and nothing fails for long enough (`DirectPath.DirectSucceeds`), and for every script
if and only if the list has no NULL buffer to skip (`DirectPath.ExactIffWhole`).

**Framing.** Sockets for messages send to and receive from a byte stream. `Exchange` sends a series of messages, of
which one may fail in the middle, lets any part of the stream arrive, and receives until it ends.

**Arithmetic.** Words are natural numbers with the wrap-around written out. Bitwise operations are defined bit by bit.

## Where the code does less than it says

- `fd.c:330`: a receive whose NULL buffer could not be skipped goes on and may report success; every successful direct
  receive is exact if and only if the list has no NULL buffer with a length (`DirectPath.ExactIffWhole`).
- `handle.c:77-79` wants some rotation of handle numbers. A closed handle is the next one given out exactly if the list
  of unused slots was empty and eight slots are unused (`Handles.CloseThenMake`); `Handles.Repeated` is a run in which
  that happens. The reset of `last` at `handle.c:100` never takes place, and nothing depends on it.
- `dns/dns.c:462-469`: the loop that sizes the network ends if and only if the range has at most 2^31 values or is the
  full one, whose 2^32 values are none in 32 bits (`Permutor.SizingEnds`). Over the full range it is `step` that does
  not end, so that the two together end if and only if there are at most 2^31 values (`Permutor.GeneratorEnds`).
- `dns/dns.c:5205-5212`: the comparison of unsigned priorities as a signed difference is the order that is meant if
  and only if no two priorities are 2^31 or more apart (`Hints.CmpExact`, `Hints.BothLess`). The walk needs less: it
  is right if and only if no two are more than 2^31 apart, any two exactly 2^31 apart have one between them, and
  none exactly 2^31 above the least stands behind it (`Hints.WalkExact`; whatever the shuffle: `Hints.AnyShuffle`).
  Otherwise it leaves addresses out (`Hints.TwoFarApart`) or never ends (`Hints.Circle`).
- `utils.c:317-324`: the length appended to a message is that of the standard if and only if the message is shorter
  than 2^32 bytes (`Sha1Stream.LengthExact`).
- `suffix.c:160-179` delivers a message that contains its own suffix in pieces, as `suffix.c:137` admits; a message
  comes back if and only if the first occurrence of the suffix is its terminator (`Suffix.Socket.ReceiveOne`,
  `Suffix.TwoMessages`), for which it does not suffice that the message is free of the suffix (`Suffix.Overlapping`).
- `prefix.c:139-142` cuts off a size that does not fit the header (`Prefix.FitsExact`, `Prefix.Socket.Receive`).
- `http.c:155-158` counts the bytes of a line that did not fit the buffer, so that the terminator is in its place if
  and only if the line end comes within 1024 bytes (`Http.RecvLine`).
- `http.c:129-130` refuses blanks but not empty words, with which a request is printed that is not parsed
  (`Http.RoundTrip`).
- `http.c:180-182` accepts any eight characters as the version, and anything that starts as it does
  (`Http.AnyVersion`).

## Model

| member | source | states |
|---|---|---|
| RbTree.Tree.constructor | rbtree.c:31-41 | a new tree is valid and empty |
| RbTree.Tree.LRotate | rbtree.c:43-58 | the stores of a left rotation, link by link, in a heap without further assumptions |
| RbTree.Tree.RRotate | rbtree.c:60-75 | the stores of a right rotation |
| RbTree.Tree.RotateLeft | rbtree.c:43-58 | a left rotation keeps the shape of the tree and the in-order list of every subtree but the two that turn, and that of the whole |
| RbTree.Tree.RotateRight | rbtree.c:60-75 | the same for a right rotation |
| RbTree.Tree.Descend | rbtree.c:82-92 | the item found has a free place, and everything before that place is at most the value, everything behind it larger |
| RbTree.Tree.InsertHelp | rbtree.c:77-99 | the new item is a leaf at that place and the in-order list has it there |
| RbTree.Tree.InsertFixLeft | rbtree.c:110-125 | one round keeps the order and every rule but the one between the current item and its parent, and moves up |
| RbTree.Tree.InsertFixRight | rbtree.c:126-142 | the mirror image |
| RbTree.Tree.InsertFixup | rbtree.c:108-144 | the loop ends with all colour rules in force and the order as it was |
| RbTree.Tree.Insert | rbtree.c:101-145 | inserting into any valid tree gives a valid tree whose contents are the old ones with the item behind every item of at most its value and before every larger one |
| RbTree.Tree.Leftmost | rbtree.c:154-156 | going left ends at the first item of the subtree's in-order list |
| RbTree.Tree.First | rbtree.c:152-158 | the head of the contents, NULL if and only if there are none |
| RbTree.Tree.NextHelp | rbtree.c:160-179 | the item right behind in the in-order list, `nil` exactly at the end, the upward walk ending at the sentinel |
| RbTree.Tree.Next | rbtree.c:181-186 | the next item of the contents, or NULL behind the last |
| RbTree.Tree.Walk | rbtree.c:152-186 | first and repeated next list the contents in order, each item once |
| RbTree.Tree.FixupLeft | rbtree.c:193-216 | one round of the erase fix-up for a left child keeps the order and either restores all rules or moves the missing black up |
| RbTree.Tree.FixupRight | rbtree.c:217-241 | the mirror image |
| RbTree.Tree.Fixup | rbtree.c:188-244 | a tree that lacks one black on the way to an item is valid again afterwards, `nil` black, with the order as it was, although the top is cached across rotations |
| RbTree.Tree.Unlink | rbtree.c:251-264 | an item with at most one child leaves the tree; what is missing afterwards is one black, and only if the item was black |
| RbTree.Tree.Replace | rbtree.c:265-274 | an item outside the tree takes over the place and colour of another, and its place in the order |
| RbTree.Tree.EraseLinks | rbtree.c:246-278 | the fix-up runs before the successor takes the erased item's place, and the result still obeys all rules |
| RbTree.Tree.Erase | rbtree.c:246-278 | erasing any item from any valid tree leaves a valid tree whose contents are the old ones without exactly that item |
| RbTree.Tree.Logarithmic | rbtree.c:101-145 | a valid tree of n items is no deeper than 2 log2(n + 1) |
| RbTree.Tree.DepthAndHeight | rbtree.c:101-145 | the depth is bounded by the black height, and the size from below by a power of it |
| SchedulerBlock.TimerInsertIs | cr.c:226-232 | the place the timer tree promises is the place of a new timer in the scheduler's sorted list |
| SchedulerBlock.TimerInsertSorted | cr.c:226-232 | timers stay sorted by deadline, then by registration |
| SchedulerTrigger.TriggerBase | cr.c:508-524 | firing a waiting clause puts its owner, which was not queued, at the end of the ready queue, and nobody is queued twice |
| SchedulerTrigger.TriggerClauses | cr.c:508-524 | afterwards still exactly the blocked coroutines have clauses on lists: a trigger withdraws all of its owner's clauses everywhere |
| SchedulerTrigger.TriggerFired | cr.c:155-160 | the owner will see the id and error of the clause that fired, and no other of its clauses has fired |
| SchedulerMeet.TriggerHistory | chan.c:193-197 | a clause that fails transfers nothing: no clause becomes completed, no bytes change, and what was matched stays so |
| SchedulerBytes.MeetBytes | chan.c:198-200 | a rendezvous completes one waiting clause and one new one, on the two sides of a half-channel, with the bytes of the sender, and changes no other clause |
| SchedulerBytes.TryNowBytes | chan.c:187-201 | a send or receive that is served at once meets the first clause waiting, and both have what its caller passed, or what the waiting sender's clause holds |
| SchedulerMeet.MeetMatched | chan.c:190-201 | the completed sends and receives stay matched one to one in the order issued |
| SchedulerMeet.MeetInv | chan.c:190-201 | a rendezvous keeps the whole invariant |
| SchedulerBlock.AddClauseInv | cr.c:429-437 | registering a clause keeps the invariant, the coroutine being about to wait |
| SchedulerBlock.BlockInv | chan.c:204-212 | blocking on any clauses that could not be served keeps the invariant |
| SchedulerSteps.ExchangeInv | chan.c:179-256 | a send or receive keeps the invariant |
| SchedulerSteps.ChooseInv | chan.c:280-347 | a choose keeps it |
| SchedulerEffects.ChDoneSays | chan.c:258-278 | ending a half-channel sets `done` for the neighbour and nothing else, empties its two lists, and resumes everybody who waited there, once, in order, with EPIPE, and nobody else; a second time it fails with EPIPE, a bad handle with EBADF, and nothing changes |
| SchedulerSteps.ChDoneInv | chan.c:258-278 | it keeps the invariant |
| SchedulerSteps.CloseBoth | chan.c:141-154 | ending both halves of a channel empties all four wait lists and keeps the invariant |
| SchedulerEffects.HCloseSays | chan.c:156-168 | closing sets `closed` for the handle and nothing else; while the other handle is open nothing more happens, and otherwise all four lists of the channel are empty and everybody who waited there is resumed, once, with EPIPE, and has left every list and timer |
| SchedulerSteps.HCloseInv | chan.c:156-168 | it keeps the invariant |
| SchedulerTurns.ChMakeSays | chan.c:99-117 | a new channel has two ends, of one pair, that are neither done nor closed and at which nobody waits |
| SchedulerSteps.ChMakeInv | chan.c:99-117 | it keeps the invariant |
| SchedulerTurns.GoSays | cr.c:241-343 | the child runs, and its parent is queued behind all others; where blocking is off it is refused and nothing happens |
| SchedulerSteps.GoInv | cr.c:241-343 | that keeps the invariant |
| SchedulerTurns.YieldSays | cr.c:530-538 | a coroutine that may block is queued behind all others with result 0 and stops running; otherwise ECANCELED and nothing happens |
| SchedulerTurns.YieldReturns | cr.c:530-538 | over every run it runs again at the jump behind those for everybody queued before it, and its yield returns 0 |
| SchedulerSteps.YieldInv | cr.c:530-538 | a yield keeps the invariant |
| SchedulerTurns.PollSays | cr.c:459-494 | a poll resumes the owners of the descriptors reported, then those of the timers that are due, by deadline and registration, with ETIMEDOUT, each once, and nobody else; every timer left is later than the clock; the wait is over exactly if it does not block or somebody was queued |
| SchedulerTurns.PollsOften | cr.c:452-460 | a wait jumps without a poll only if somebody is queued and the last poll is not more than a second ago, and blocks in a poll only if nobody is |
| SchedulerSteps.PollInv | cr.c:459-494 | a poll keeps the invariant |
| SchedulerSteps.DispatchInv | cr.c:497-504 | the jump keeps it: there is somebody to run, and it is the head of the queue |
| SchedulerDrain.ExpireExact | cr.c:476-487 | expiry leaves exactly the timers later than now and queues the owners of the others by deadline, ties in registration order |
| SchedulerDrain.OneTimer | cr.c:484-484 | firing the first timer withdraws no other timer |
| SchedulerDrain.DrainExact | chan.c:267-276 | draining a list queues each owner of a clause on it once, in order, even an owner of several |
| SchedulerDrain.DrainError | chan.c:265-276 | the owner of every drained clause is queued with the given error |
| SchedulerDrain.DrainResult | chan.c:265-276 | what a queued coroutine will see does not change |
| SchedulerRuns.StepInv | cr.c:439-506 | every step keeps the invariant |
| SchedulerRuns.RunInv | cr.c:439-506 | it holds in every state of every run |
| SchedulerBytes.BlockStores | cr.c:429-437 | blocking on any requests stores the bytes of each as they were passed |
| SchedulerBytes.StepBytes | chan.c:179-347 | no step changes the bytes of a send, or those of a receive unless it completes it, or what has happened to a clause; the sends and receives it issues have the numbers, the lists and the bytes of the clauses of the call |
| SchedulerBytes.RunBytes | chan.c:179-347 | the same over any part of a run |
| SchedulerBytes.ClauseCarries | chan.c:179-347 | in every state of a run every send carries the bytes passed for the clause of its number to the call that issued it, and every receive is such a clause |
| SchedulerBytes.SendsMatchReceives | chan.c:179-256 | over every run there are as many completed sends on a half-channel as completed receives, and the i-th receive, in the order issued, has the bytes that the caller of the i-th send passed for that clause |
| SchedulerRuns.NoMissedRendezvous | chan.c:188-253 | in no reachable state a sender and a receiver wait on one half-channel, unless they are clauses of one blocked coroutine |
| SchedulerRuns.DoneForever | chan.c:262-276 | a half-channel that is done stays so, with both lists empty forever |
| SchedulerRuns.WaitReturns | cr.c:442-447 | what a wait returns names the one clause that fired, with its error |
| SchedulerResults.ServedAtOnce | chan.c:179-326 | a send, receive or choose that does not wait, whatever it returns: with errno 0 it has completed the clause whose number it returns, with the first peer waiting and the bytes of the sender, and no other; with any error it has completed none |
| SchedulerAside.StepAside | cr.c:429-520 | a step keeps the clauses of every coroutine that neither runs nor is jumped to, and whatever is on no list any more |
| SchedulerResults.CallWaits | chan.c:204-342 | a call that waits has registered its clauses, numbered from 0, with their lists and bytes, and behind them a timer with its deadline |
| SchedulerResults.Woken | cr.c:442-447 | when its coroutine is jumped to, exactly one of them or the timer has fired, and `dill_wait` returns its number and error |
| SchedulerResults.ResultsTrue | chan.c:179-347 | over every run: if a send, receive or choose returns, at once or after a wait, then at the end of the run exactly the clause whose number it returned with errno 0 is completed (the only one, if 0 is returned by a send or receive), no other clause of the call is, and if its timer fired it returned ETIMEDOUT |
| SchedulerEnds.EndsMeet | chan.c:179-256 | over every run the i-th completed send and the i-th completed receive on a half-channel were issued with two different handles of one channel |
| SchedulerEnds.MeetsAtOnce | chan.c:186-201 | a send or receive, or a choose of one clause, returns at once, whatever its deadline, if somebody waits in a call with the other handle: it serves the one that has waited longest, with 0 if the sizes agree and EMSGSIZE for both otherwise |
| SchedulerEnds.NobodyToMeet | chan.c:186-253 | if nobody does, it fails with EPIPE where the channel is done, with ETIMEDOUT if its deadline is 0, and waits otherwise |
| SchedulerEnds.ChooseFirst | chan.c:286-328 | a choose ends as the first of its clauses that would not have to wait alone; if there is none it times out or waits |
| SchedulerTurns.InitialSays | cr.c:180-197 | in the beginning the main coroutine runs and may block, and nobody is queued or waits |
| SchedulerTurns.FinishedForGood | cr.c:345-371 | a coroutine that has finished never runs again |
| SchedulerTurns.SleepSays | libdill.c:32-42 | a sleeping coroutine waits for a timer with its deadline, or for nothing |
| SchedulerTurns.FdWaitSays | libdill.c:44-60 | a coroutine that waits for a descriptor waits for it and for a timer with its deadline |
| SchedulerTurns.Refused | cr.c:162-167 | where blocking is off every call that may block is refused with ECANCELED and does nothing |
| SchedulerTurns.NoBlockingSays | cr.c:169-174 | blocking is switched for the running coroutine only |
| SchedulerRuns.StepQueue | cr.c:155-160 | only the jump takes from the queue, from its head; everything else adds at its end |
| SchedulerRuns.QueuePosition | cr.c:497-504 | a coroutine with k others in front moves up by one with each jump |
| SchedulerRuns.RunsInTurn | cr.c:497-504 | it runs at exactly the (k+1)-th jump |
| SchedulerCtx.Ctx.constructor | cr.c:180-197 | the initial state |
| SchedulerCtx.Ctx.Cancel | chan.c:174-177 | a clause leaves the list it waits on |
| SchedulerCtx.Ctx.DoCancel | cr.c:508-520 | the loop over the clauses of a coroutine withdraws them all; the assertion at its start is a precondition that every caller meets |
| SchedulerCtx.CanCancel | cr.c:509-510 | the assertion holds for the owner of every clause on a list |
| SchedulerCtx.Ctx.TriggerClause | cr.c:522-524 | is the step `Trigger` |
| SchedulerCtx.Ctx.DrainList | chan.c:267-271 | the loop ends, with the list empty, and is the step that drains |
| SchedulerCtx.Ctx.ExpireTimers | cr.c:476-487 | the loop ends, with no expired timer left, and is the step that expires |
| SchedulerCtx.Ctx.WaitFor | cr.c:226-232 | a clause is registered at the end of its list or at its place among the timers |
| SchedulerCtx.Ctx.Serve | chan.c:187-201 | serving a send or receive is the step `TryNow` |
| SchedulerCtx.Ctx.ChSend | chan.c:179-217 | is the step `Send`, and if it returns at once tells what it did |
| SchedulerCtx.Ctx.ChRecv | chan.c:219-256 | is the step `Recv`, and if it returns at once tells what it did |
| SchedulerCtx.Ctx.ScanChoices | chan.c:286-326 | the first loop stops at the first clause that can be served or is in error: with errno 0 the clause whose number it returns, and no other, was completed, and otherwise none |
| SchedulerCtx.Ctx.RegisterAll | chan.c:331-340 | the second loop registers all clauses |
| SchedulerCtx.Ctx.ChChoose | chan.c:280-347 | is the step `Choose`; if it returns a number with errno 0 at once that clause, and no other, was completed, and otherwise none |
| SchedulerCtx.Ctx.ChanDone | chan.c:258-278 | the flag and the two loops do what `ChDoneSays` says |
| SchedulerCtx.Ctx.Close | chan.c:156-168 | the flag, and on the last handle the four loops, do what `HCloseSays` says |
| SchedulerCtx.Ctx.PollStep | cr.c:472-490 | one turn of the poll loop does what `PollSays` says |
| SchedulerCtx.Ctx.PollUntilReady | cr.c:459-494 | the poll loop is a run of polls and ends only with somebody queued, or without blocking |
| SchedulerCtx.Ctx.JumpToNext | cr.c:497-504 | is the step `Dispatch` |
| SchedulerCtx.Ctx.Wait | cr.c:439-506 | a wait is a run of polls and one jump |
| Iolists.GatherScatter | iol.c:82-95 | bytes spread over separate buffers are found in them, in order |
| Iolists.ScatterOutside | iol.c:82-95 | spreading touches no memory outside the buffers |
| Iolists.ScatterShift | fd.c:230-242 | bytes spread in two calls end up where they would have in one, the list being shifted in between |
| Iolists.GatherShift | fd.c:184-197 | a shifted list holds the bytes that are left |
| IolCheck.Check | iol.c:30-57 | accepts exactly the empty list and the acyclic lists that end in the given last element, counts them right, leaves no mark on a list it accepts, and ends on cyclic links too |
| IolCheck.NoList | iol.c:42-43 | what makes the check give up is not found in any well-formed list |
| IolOps.IolTo | iol.c:82-95 | fails exactly if there is not room for everything, and spreads as much as there is |
| IolOps.IolFrom | iol.c:97-108 | fails exactly if the buffer is too small, and otherwise gathers the list in it |
| IolOps.IolTrim | iol.c:68-80 | fails exactly if the list is shorter, and otherwise gives the trimmed list |
| IolOps.TrimmedScatter | iol.c:68-80 | what is spread over a trimmed list ends up behind the bytes cut off |
| Fd.ToVector | iol.c:59-66 | the vector holds the elements of the list in order |
| Fd.Adjust | fd.c:184-197 | the vector is shifted by the bytes transferred, in place |
| Fd.Socket.Send | fd.c:151-202 | for every script: on success exactly the bytes of the list in order have been sent, otherwise a prefix of them; it succeeds if nothing fails for long enough |
| Fd.Socket.RecvRaw | fd.c:205-248 | for every script: the reading loop uses as many bytes as `Pump` says and spreads exactly them over the list |
| Fd.Socket.Skip | fd.c:251-261 | skips as many bytes as `SkipFlow` says, in chunks of 512, and leaves memory as it was |
| Fd.Socket.Copy | fd.c:265-282 | the smaller of what is buffered and what the element takes is copied, the rest stays buffered |
| Fd.Socket.CopyList | fd.c:291-297 | buffered bytes fill the front of the list; what is left of the list begins where they end |
| Fd.Socket.RecvDirect | fd.c:313-350 | for every script the direct path does what `Direct` says: runs of buffers are read with one call, NULL buffers are skipped, empty ones passed over |
| Fd.Socket.RecvBuffered | fd.c:351-383 | for every script the buffered path puts the next bytes into the list, and the buffer and the stream hold the rest |
| Fd.Socket.Recv | fd.c:284-384 | for every list and script the list as served holds the next bytes of the buffered ones and the stream, the rest is left; the list is served as it is if and only if no NULL buffer on the direct path was left unskipped; and if enough bytes come and nothing fails for long enough, it succeeds with the list served as it is |
| Fd.Socket.SkipAll | fd.c:286-287 | without a list, bytes are dropped until an error |
| Kernel.PumpSucceeds | fd.c:205-248 | with enough bytes to come, and no failure for three calls a byte and three a delay, reading succeeds |
| Kernel.ReadErrors | fd.c:219-224 | the end of the stream is reported as EPIPE, a broken pipe as ECONNRESET |
| DirectPath.DirectServes | fd.c:313-350 | a direct receive uses the bytes of the list as served, and serves the list as it is if and only if every NULL buffer it came to was skipped to its end |
| DirectPath.DirectSucceeds | fd.c:313-350 | with enough bytes to come and such a script it succeeds and serves the list as it is |
| DirectPath.ExactIffWhole | fd.c:327-332 | every successful direct receive is exact, for all scripts, if and only if the list has no NULL buffer with a length |
| DirectPath.SpoiledRun | fd.c:327-332 | for every list there is a script on which a direct receive succeeds and no NULL buffer is skipped |
| FdSpec.ReceivedBoth | fd.c:288-312 | bytes from the buffer and bytes received afterwards end up as one stretch of the stream |
| FdSpec.WholeExact | fd.c:284-384 | a list without NULL buffers to skip is served as it is on every script, buffered bytes or not |
| Handles.UnusedCount | handle.c:80-80 | used and unused slots make up the table |
| Handles.NeverEmpty | handle.c:97-99 | when more than eight slots are unused, the list of unused slots is not empty |
| Handles.Popped | handle.c:97-105 | taking the first slot keeps the table sound |
| Handles.Returned | handle.c:121-127 | returning a slot keeps the table sound |
| Handles.Grown | handle.c:80-95 | growing gives up the old list, of at most eight slots, and keeps the table sound |
| Handles.Table.constructor | handle.c:57-64 | the empty table |
| Handles.Table.Grow | handle.c:80-95 | the table doubles, or starts with 256 slots, and nothing in use changes |
| Handles.Table.HMake | handle.c:70-107 | each error exactly in its case; on success a number that was not in use belongs to the object, it is the head of the list, and at most eight slots are unreachable |
| Handles.Table.HOwn | handle.c:109-129 | the object gets a number that was not in use and the old one becomes invalid; if that fails the object is closed, once |
| Handles.Table.HQuery | handle.c:131-146 | the answer is that of the object, cached or not |
| Handles.Table.HClose | handle.c:148-167 | the object is closed once, its number becomes invalid and goes to the end of the list |
| Handles.CloseThenMake | handle.c:77-79 | a closed handle is the next one given out if and only if the list was empty and exactly eight slots were unused |
| Handles.Repeated | handle.c:77-79 | a run in which a handle is given out again right after it was closed |
| Permutor.UnroundsRounds | dns/dns.c:529-545 | undoing the rounds gives back the halves, for any round function |
| Permutor.DecEnc | dns/dns.c:510-545 | D inverts E on the whole domain, for any round function and number of rounds |
| Permutor.EncDec | dns/dns.c:510-545 | E inverts D, so that E is a bijection |
| Permutor.NetPermutes | dns/dns.c:510-526 | over any whole period of counters E takes every value once |
| Permutor.CounterWraps | dns/dns.c:552-552 | the 32-bit wrap-around of the counter does not matter |
| Permutor.SizingEnds | dns/dns.c:462-480 | the sizing loop ends if and only if the range has at most 2^31 values or all 2^32, whose number is 0 in 32 bits |
| Permutor.StepEnds | dns/dns.c:548-556 | a step ends if and only if the length is not 0 |
| Permutor.GeneratorEnds | dns/dns.c:462-556 | sizing and stepping both end if and only if the range has at most 2^31 values |
| Permutor.PowOf | dns/dns.c:462-469 | the smallest exponent whose power of two is not below the number |
| Permutor.Generator.constructor | dns/dns.c:471-493 | for every range whose sizing ends, including one that goes round at 2^32 and the full one, the network is at least as large as the length |
| Permutor.Generator.Encrypt | dns/dns.c:510-526 | the loop over two alternating pairs of halves computes E |
| Permutor.Generator.Decrypt | dns/dns.c:529-545 | the loop computes D |
| Permutor.Generator.Step | dns/dns.c:548-556 | ends if the length is not 0, with the image of the first counter whose image is in range, moved to the range |
| Permutor.Generator.Period | dns/dns.c:548-556 | as many consecutive calls as the range has values return each value of the range, which may go round at 2^32, once |
| Permutor.ListsPlain | dns/dns.c:548-556 | for a range that does not go round these are the values from low to high |
| CycleWalk.EveryValueOnce | dns/dns.c:548-556 | walking any permutation over any whole number of hits meets every wanted value once |
| Shuffle.BackSbox | dns/dns.c:572-604 | the substitution table is a permutation of the bytes |
| Shuffle.TurnBack | dns/dns.c:611-616 | a round can be undone |
| Shuffle.ShuffleInjective | dns/dns.c:571-619 | for every seed the shuffle is injective |
| Shuffle.Shuffle16 | dns/dns.c:571-619 | the loop computes the shuffle |
| Hints.CmpExact | dns/dns.c:5205-5212 | the comparison is the order by priority and shuffled index, for all pairs, if and only if no two priorities are 2^31 or more apart |
| Hints.BothLess | dns/dns.c:5205-5212 | of two priorities 2^31 apart each compares as less than the other |
| Hints.Total | dns/dns.c:5205-5212 | that order is irreflexive, transitive and total |
| Hints.Start | dns/dns.c:5215-5226 | the address found is the least one if no two priorities are more than 2^31 apart and none exactly 2^31 above the least stands behind it |
| Hints.BestStays | dns/dns.c:5215-5226 | no address behind the start compares as less |
| Hints.Skip | dns/dns.c:5229-5251 | what is found is the next address in the order, or there is none, if no two priorities are more than 2^31 apart and those exactly 2^31 apart have one between them |
| Hints.WalkExact | dns/dns.c:5215-5293 | a walk that is over has met every address once and in order if and only if the conditions of `Start` and `Skip` hold |
| Hints.NearWalkable | dns/dns.c:5205-5293 | priorities less than 2^31 apart meet these conditions |
| Hints.AnyShuffle | dns/dns.c:5205-5293 | the conditions hold whatever the shuffle if and only if no two priorities are more than 2^31 apart, those exactly 2^31 apart have one between them, and the higher of them stands first |
| Hints.AnySeed | dns/dns.c:5254-5269 | then they hold for every seed |
| Hints.TwoFarApart | dns/dns.c:5215-5293 | of two addresses whose priorities are 2^31 apart only the second is handed out |
| Hints.Circle | dns/dns.c:5229-5293 | on three priorities that compare in a circle the walk hands out addresses for ever |
| Hints.Iterator.constructor | dns/dns.c:5254-5269 | for all priorities the walk begins with nothing handed out, at the start |
| Hints.Iterator.Grep | dns/dns.c:5272-5293 | hands out the next addresses of the walk, fewer than asked for only at the end |
| Hints.Iterator.AllOnce | dns/dns.c:5272-5293 | when the walk is over every address was handed out exactly once, in nondecreasing priority, if and only if the priorities are as `WalkExact` says |
| Hints.Iterator.Over | dns/dns.c:5272-5293 | on such priorities it is over after as many addresses as there are |
| Sha1Stream.NextWord | utils.c:272-278 | the 16 words in place give the next word of the 80-word schedule |
| Sha1Stream.WindowMoves | utils.c:277-277 | overwriting the oldest word keeps the words that are still needed |
| Sha1Stream.RoundIs | utils.c:279-292 | a round of the source is a round of the standard |
| Sha1Stream.RunRounds | utils.c:266-293 | 80 rounds with the schedule in place give the working variables of the standard |
| Sha1Stream.AddressIs | utils.c:260-263 | on machines of either byte order a byte gets to its place in the block |
| Sha1Stream.Context.constructor | utils.c:239-254 | the initial hash value |
| Sha1Stream.Context.Add | utils.c:256-301 | buffer and state are those of all bytes so far |
| Sha1Stream.Context.HashByte | utils.c:303-306 | one more byte of the message |
| Sha1Stream.Context.Finish | utils.c:308-324 | the bytes added are the padding of the standard, including where it needs a block of its own |
| Sha1Stream.Context.Result | utils.c:308-337 | for every message shorter than 2^32 bytes the result is the digest of the standard, on machines of either byte order |
| Sha1Stream.LengthExact | utils.c:317-324 | the appended length is right if and only if the message is shorter than 2^32 bytes |
| Base64.Encode | utils.c:195-235 | fails exactly if text and terminator do not fit; otherwise the digits written stand for the same number as the bytes, padded to 4*ceil(n/3) characters |
| Base64.Decode | utils.c:124-193 | fails exactly if the bytes do not fit; otherwise they stand for the same number as the digits read |
| Base64.RoundTrip | utils.c:124-235 | decoding an encoded text gives back the bytes |
| Base64.Alphabet | utils.c:203-206 | the digits are the 64 characters of RFC 4648 in their order, in both tables, and = is the padding |
| Suffix.Socket.MSend | suffix.c:132-144 | the bytes sent are always those of the messages sent, each with its suffix, and at most a part of one more; a message is sent as a whole, or in part and nothing after it |
| Suffix.Socket.SendAll | suffix.c:132-144 | a series of messages puts their stream on the wire, or a part of it if one of them fails |
| Suffix.Socket.MRecv | suffix.c:146-181 | the sliding window stops at the first occurrence of the suffix, and the buffer holds what was before it, as far as there is room |
| Suffix.Socket.ReceiveOne | suffix.c:146-181 | a message comes back as it was sent, whatever follows, if and only if the suffix first occurs at its end; otherwise what is before that occurrence comes back |
| Suffix.TwoMessages | suffix.c:137-139 | a message with the suffix inside cannot be told from two messages |
| Suffix.Overlapping | suffix.c:137-139 | a message without the suffix inside that does not come back either |
| Suffix.Socket.ReceiveAll | suffix.c:146-181 | receiving until an error gives the pieces of any stream, as far as there is room |
| Suffix.SplitExact | suffix.c:132-181 | the pieces of the stream of a series are its messages if and only if each first has the suffix at its end |
| Suffix.Exchange | suffix.c:132-181 | of a series that is sent, perhaps not to its end, and that arrives, perhaps in part, exactly the messages that arrived as a whole are received, if they are clean; if everything arrives, all come back if and only if they are |
| Prefix.PutHeader | prefix.c:139-142 | the header holds the lowest bytes of the size in the order wanted |
| Prefix.GetHeader | prefix.c:157-163 | the number that the header stands for, in 64 bits |
| Prefix.WireOrder | prefix.c:139-142 | in network order the first byte of a header is the most significant one, in the other order the last |
| Prefix.FitsExact | prefix.c:128-163 | a size survives its header, in either order, if and only if it fits there |
| Prefix.Socket.MSend | prefix.c:128-147 | the bytes sent are always those of the messages sent, each behind its header, and at most one more; a message is sent as a whole, or as far as the underlying socket got before it failed, and nothing after it |
| Prefix.Socket.SendAll | prefix.c:128-147 | a series of messages puts their stream on the wire, or a part of it if one of them fails |
| Prefix.Socket.MRecv | prefix.c:149-189 | takes the message from the stream, and fails exactly if it does not fit the buffer or is not there |
| Prefix.Socket.Receive | prefix.c:128-189 | a message comes back as it was sent, or is skipped as a whole, if and only if its size fits in the header |
| Prefix.Socket.ReceiveAll | prefix.c:149-189 | of the part of a stream that has arrived exactly the whole messages are received or skipped, as the receiver wishes |
| Prefix.Exchange | prefix.c:128-189 | the same of a series that is sent, perhaps not to its end, and that arrives, perhaps in part; if everything arrives, all messages come back or are skipped |
| Http.PrintRequest | http.c:125-149 | refuses exactly what contains blanks; the line printed contains no line end, and its words are those it was printed from if and only if both are non-empty, otherwise it is no request |
| Http.SpelledOut | http.c:131-147 | the printed line reads: command, space, resource, space, HTTP/1.1 |
| Http.ParseRequest | http.c:151-186 | accepts exactly three words with a version as the source checks it, and gives the first two if they fit |
| Http.AnyVersion | http.c:180-182 | any eight characters pass for the version |
| Http.LineClean | http.c:125-149 | a printed line contains no line end but its own |
| Http.RecvLine | http.c:155-158 | the terminator behind a received line is written within the buffer if and only if the first line end stands before place 1024 |
| Http.RoundTrip | http.c:125-186 | a request that is printed, sent as a message, received and parsed comes back if and only if both words are non-empty |

## Left out

- Context switching, stacks, census, and the macros around them: machine level.
- Bundles and closing coroutines: `dill_bundle_wait` registers a clause without a cancel function.
- The pollset: a poll may fire any clause on a descriptor; a failing poll is not a step; a poll counts as having fired something exactly if it queued somebody.
- Message memory in the scheduler: a send clause carries the bytes it had when it was issued, as the caller keeps them unchanged while it waits.
- Sleeping and waiting for descriptors: what the two functions make of the number that `dill_wait` returns (libdill.c:39-59).
- Handles in the scheduler: a channel handle is the index of its half-channel with an open flag; the table itself is `Handles`.
- Handles.Table.HClose: assumes that the close function neither makes nor closes handles, because the source keeps a pointer into the table across that call; the width of `int` is not modelled.
- IolCheck.Check: says nothing about the marks of a list it refuses, because the clean-up at iol.c:54 clears the mark of one element only; the counts do not wrap around.
- Fd.Socket.Recv: the cache of buffers behind the allocation is left out; a receive buffer is allocated or the allocation fails.
- DirectPath.DirectSucceeds: that enough bytes come and nothing fails for three calls a byte is sufficient for success, not necessary.
- Fd.Socket.Send: lists with NULL buffers that have a length are left out, the kernel refuses them.
- Permutor.Generator.constructor: ranges whose sizing does not end are left out; the key of the round function is any function of two words; TEA itself is left out.
- Hints.Iterator.constructor: finding the zone by its name and changing it during a walk are left out.
- Sha1Stream.Context.Output: the correction for little-endian machines is the reversal of the bytes of a word, not the masks and shifts of utils.c:326-334.
- Base64.Decode: characters are numbers from 0 to 255; the reading of the table at a negative character is left out.
- Suffix.Socket.MRecv: receive lists of several buffers are left out, because suffix.c:164 looks at the first element only.
- Prefix.Socket.MRecv: receive lists of several buffers are left out, because a list trimmed before its last element is refused by the check of the list.
- Http.ParseRequest: lines longer than the socket's own buffer are left out here, as are status lines and header fields.
- Websockets, TLS, TCP, UDP, IPC, SOCKS5 and happy eyeballs: system calls, other libraries, or short exchanges.
- DNS packets, name compression, the resolver and its configuration.
