# Verified models of Cobalt

Cobalt is a C11 library of containers, memory reclamation, algorithms and an asynchronous runtime. This project holds
Dafny models of its most intricate parts and proofs about them. `dafny verify dfyconfig.toml` checks everything.

- **Regular expressions** (`Regex*.dfy`). `RegexSyntax` gives patterns their language, and derivations with capture
  slots. `RegexCompiler` says what the code of a pattern is and proves that its runs are exactly the derivations.
  `RegexCodeGen` is the back-patching code generator, `RegexProgram` the whole program with its unanchored prefix,
  `RegexVm` the breadth-first machine with its generation-stamped visited array, and `Regex` the two entry points.
- **Epoch-based reclamation** (`Ebr.dfy`, `EbrProgress.dfy`). All interleavings of registration, critical sections,
  retirement, the scan that advances the epoch, orphan lists and `sync`: what is safe, and what gets done.
- **Lock-free hash map** (`SplitOrder.dfy`, `LockFreeList.dfy`, `LockFreeMap.dfy`, `LockFreeAnswers.dfy`). Bit-reversed
  keys; the shared list with marked nodes; any number of threads inserting, replacing, looking up, removing and adding
  bucket sentinels; their answers.
- **Timers** (`AlarmClock.dfy`, `TimerScript.dfy`, `TimingWheel.dfy`, `TimerTable.dfy`). The four-level wheel emits only
  histories that a plain set of deadlines allows, and in which callbacks do exactly what their script says; the table that
  finds timers refines a map.
- **Queues in shared memory** (`SharedRing.dfy`, `RingDelivery.dfy`, `TicketQueue.dfy`, `QueueAnswers.dfy`) and the
  **work-stealing deque** (`WorkStealing.dfy`, `DequeAnswers.dfy`).
- **Robin Hood hash map** (`RobinHood.dfy`), **task graph** (`TaskGraph.dfy`, `TaskRun.dfy`), **sorting**
  (`StableSort.dfy`, `PdqSort.dfy`, `SortOrder.dfy`). `Basics.dfy` and `Ring.dfy` hold what several of them share.

Concurrent code is modelled as a state machine: a state, the steps each thread can take (one access to shared memory per
step, with the local work that follows it), an invariant of every step, and theorems over whole runs. Sequential code that
works in place is modelled by methods with loops over arrays and fields, each proved against a specification. Variables
named as history in a comment are not in the program; no step depends on them except through conditions that are proved to
hold anyway.

Some things the proofs found out about the code:

- `cobalt_ebr_sync` does not always leave the pool without orphans of epochs up to its target less two. A flush that an
  earlier advance put off can take such a node out and put it back (`EbrProgress.SyncCanLeaveOne` is a run). It is freed
  unless another call takes the slot while `sync` flushes (`EbrProgress.SyncLeavesNothing`).
- `cobalt_regex_search` reports a match that starts where a match starts that ends first, which need not be the leftmost
  start (`Regex.Search`).
- `calculate_timeout_ms` looks at level 0 of the wheel only. No timer is slept past while the sleep ends at or before the
  next multiple of 256 ms after the hand (`TimingWheel.Wheel.NextWait`). Whenever the longest sleep goes past that
  multiple there is a wheel that sleeps past a timer due there (`TimingWheel.SleepsPast`): armed at 700 for 1024, with the
  hand at 1020, the loop sleeps until 1030 (`TimingWheel.SleepsPastFrom`).
- `cobalt_shm_spsc_reserve` accepts frames up to the capacity less one header, but an empty ring can refuse a frame of
  more than half the capacity for ever. `SharedRing.EmptyRefuses` is the exact condition on the cursor; by
  `SharedRing.HalfAlwaysFits` and `SharedRing.LargerCanBeRefused` a run from a fresh ring to such a refusal exists exactly
  if twice the frame is more than one word longer than the buffer.
- The branch of `get_or_init_bucket` for a sentinel met after a failed search (`src/container/lfhashmap.c:409-414`) is never
  taken: a failed search ends at a larger key or at the end of the list (`LockFreeMap.MissedIsLarger`).
- The correction of `expire_time_ms` for a timer that fires late (`src/module/eventloop.c:565-567`) is never needed, as
  every timer fires on the tick of its deadline: the next expiry is always the last one plus the interval
  (`TimingWheel.Wheel.FireOne`, `AlarmClock.FiresEveryInterval`).
- A timer table at its largest size, 2^30 slots, accepts timers until no slot is free (`TimerTable.FillUp` makes such a
  table by insertions). From then on the probe for an identity that is not there never ends, and neither does the removal
  of one that is there, as both wait for a free slot (`TimerTable.Table.FullNeverEnds`,
  `TimerTable.Table.RemovalNeverEnds`). `TimerTable.Table.Insert` says exactly which insertion takes the last slot.

## Model

| member | source | states |
|---|---|---|
| Regex.MatchExact | src/algorithm/regex.c:1614-1620 | for every backreference-free pattern, flags and text: true exactly if the whole text is in the pattern's language; captures come from one derivation of that match |
| Regex.Search | src/algorithm/regex.c:1606-1612 | true exactly if some interval of the text, in its context, is in the language; captures come from one derivation, of a match that starts where a match starts that ends first |
| Regex.RecordedWhole | src/algorithm/regex.c:1584-1599 | capture 0 is the matched interval, and it is in the language |
| Regex.RecordedGroups | src/algorithm/regex.c:1584-1599 | every other capture is unset or an interval matched by the body of its own group |
| Regex.RecordedCertain | src/algorithm/regex.c:1584-1599 | a group that every match passes through is reported, as an interval inside the match that the body of the group matches |
| RegexSyntax.AnchoredMatchesStart | src/algorithm/regex.c:962-978 | a pattern the anchor test accepts matches only at position 0 when multiline is off |
| RegexSyntax.DerivesLang | src/algorithm/regex.c:1134-1323 | recording captures adds no match to the language |
| RegexSyntax.LangDerives | src/algorithm/regex.c:1134-1323 | recording captures loses no match of the language |
| RegexSyntax.CapturesGenuine | src/algorithm/regex.c:1203-1221 | a derivation keeps every capture unset or genuine, through nested and repeated groups |
| RegexSyntax.CertainIsSet | src/algorithm/regex.c:1203-1221 | a group that every match passes through is captured inside the match |
| RegexSyntax.WordBoundaryInside | src/algorithm/regex.c:1271-1284 | inside the text a word boundary has one of the 63 listed word bytes on exactly one side |
| RegexSyntax.WordBoundaryAtEnds | src/algorithm/regex.c:1271-1284 | surrounding the text with bytes that are not word bytes leaves every word boundary where it was |
| RegexSyntax.EolIsBolBackwards | src/algorithm/regex.c:1223-1269 | `$` is `^` of the text read backwards |
| RegexSyntax.BolMeans | src/algorithm/regex.c:1223-1245 | `^` holds at the start, in multiline mode after newlines, and nowhere else |
| RegexSyntax.LangBackwards | src/algorithm/regex.c:1134-1323 | a pattern matches an interval exactly if the pattern read backwards matches it in the text read backwards |
| RegexSyntax.ToLowerMeans | src/algorithm/regex.c:1470-1478 | folding moves exactly the 26 capitals to their small letters |
| RegexSyntax.CharMeans | src/algorithm/regex.c:1470-1478 | with folding a byte matches itself and the other case of a letter, without it only itself |
| RegexSyntax.AnyAndClassMean | src/algorithm/regex.c:1480-1495 | `.` leaves out the newline only, unless its flag is set; a class and its negation share the bytes out |
| RegexCompiler.CodeSound | src/algorithm/regex.c:778-960 | every run through the code of a pattern is a derivation of the pattern, for every quantifier expansion and nullable bodies |
| RegexCompiler.CodeComplete | src/algorithm/regex.c:778-960 | every derivation of a pattern is a run through its code with the same captures |
| RegexCodeGen.CodeGen.CompileNode | src/algorithm/regex.c:778-960 | the generator appends exactly the code of the pattern and leaves earlier instructions alone |
| RegexCodeGen.CodeGen.CompileOptions | src/algorithm/regex.c:934-957 | bounded optional copies, with every exit patched to the common end |
| RegexProgram.Compile | src/algorithm/regex.c:1028-1064 | the program: pattern between the saves of capture 0, match, and the unanchored prefix unless the pattern is anchored |
| RegexProgram.AcceptSound | src/algorithm/regex.c:1028-1064 | a run to the match from either entry is a match of the pattern; from the exact entry it starts at 0 |
| RegexProgram.AcceptComplete | src/algorithm/regex.c:1028-1064 | every match of the pattern is such a run; leaving the prefix out of an anchored program loses nothing |
| RegexVm.PikeVm.AddThread | src/algorithm/regex.c:1134-1323 | the closure of a thread: everything reachable without consuming is seen and listed once, the list never overflows, a reached match is recorded |
| RegexVm.PikeVm.Run | src/algorithm/regex.c:1325-1604 | the machine reports a match exactly if some run of the program reaches one, with the captures of such a run; in a search the start is that of a run that gets to the match first |
| RegexVm.PikeVm.NextGeneration | src/algorithm/regex.c:1325-1604 | starting a new generation empties the visited set, also when the counter wraps |
| RegexVm.LevelsCover | src/algorithm/regex.c:1325-1604 | every run of the program stays inside the sets of instructions the machine has listed position by position |
| Ebr.StepInv | src/memory/ebr.c:246-493 | every step of every operation keeps the protocol invariant |
| Ebr.SafeReclamation | src/memory/ebr.c:358-466 | in every run a pointer is never freed while a handle that was active when it was unlinked is still in that section |
| Ebr.EpochRisesAtMostOne | src/memory/ebr.c:430-466 | during a section the global epoch rises at most one above its value when the section announced itself, even with a stale announcement |
| Ebr.FreedTwoEpochsLater | src/memory/ebr.c:104-152 | everything freed was retired at least two epochs before |
| Ebr.Conservation | src/memory/ebr.c:209-493 | in every run each retired pointer is in exactly one list, in flight or freed, exactly once |
| Ebr.DestroyFreesTheRest | src/memory/ebr.c:209-244 | destroying a quiet domain frees exactly what was still pending, each once |
| EbrProgress.AdvanceOutcome | src/memory/ebr.c:430-466 | in every run an advance that has ended met a registered active handle with an announcement below its epoch, found the epoch moved by another call, or moved it by one itself |
| EbrProgress.AdvanceAlone | src/memory/ebr.c:430-466 | on its own an advance raises the epoch by one exactly if no handle lags, and then frees exactly the orphans of slot (g + 2) % 3 retired before g |
| EbrProgress.AdvanceFlushes | src/memory/ebr.c:453-465 | in every run an advance that moved the epoch on from g and has ended took slot (g + 2) % 3, and all that was in it from before g is freed |
| EbrProgress.FlushFrees | src/memory/ebr.c:104-152 | in every run a flush frees what is not newer than its limit and puts the rest back |
| EbrProgress.SyncFlushes | src/memory/ebr.c:468-493 | in every run a sync that has ended waited for three epochs, took all three slots, and all that was in them up to its target less two is freed |
| EbrProgress.SyncLeavesNothing | src/memory/ebr.c:468-493 | an orphan up to that epoch that was in the pool when the flush began is freed unless another call took its slot meanwhile |
| EbrProgress.SyncCanLeaveOne | src/memory/ebr.c:104-152 | a run in which another call does, and the orphan is in the pool after the sync |
| EbrProgress.SyncAlone | src/memory/ebr.c:468-493 | with no handle in a section, a sync on its own raises the epoch by three and empties the pool |
| EbrProgress.DetachHandsOver | src/memory/ebr.c:358-371 | reclaiming at epoch g takes exactly the nodes of slot (g + 1) % 3 and leaves the others |
| EbrProgress.HandedOverIsFreed | src/memory/ebr.c:76-95 | in every run these have been freed when the handle is idle again |
| EbrProgress.Announces | src/memory/ebr.c:358-366 | in every run a section is announced with the epoch its entry read |
| EbrProgress.LeavesOrKeeps | src/memory/ebr.c:375-381 | an announcement stays until its section is left, and then is gone |
| EbrProgress.RegistrationMeans | src/memory/ebr.c:246-356 | a new, reused or unregistered handle is empty and in no section; what it held is in the pool |
| EbrProgress.CallCanStep | src/memory/ebr.c:430-493 | no call gets stuck but a sync that waits for the epoch |
| SplitOrder.ReverseBit | src/container/lfhashmap.c:133-141 | bit i of the reversed word is bit 63 - i of the word |
| SplitOrder.SentinelPrecedes | src/container/lfhashmap.c:143-151 | at every table size the sentinel of a hash's bucket has a smaller key than the hash |
| SplitOrder.NoSentinelBetween | src/container/lfhashmap.c:143-151 | no sentinel of another bucket of the same table lies between a key and the sentinel of its bucket, in the order the list is kept in |
| SplitOrder.ParentPrecedes | src/container/lfhashmap.c:379 | a parent bucket has a smaller index and a smaller sentinel key than its child |
| SplitOrder.SentinelInjective | src/container/lfhashmap.c:148-151 | different buckets have different sentinel keys |
| SplitOrder.RegularKeysAreOdd | src/container/lfhashmap.c:143-156 | regular keys are odd and sentinel keys even |
| SplitOrder.LocationInverse | src/container/lfhashmap.c:223-241 | bucket to segment and offset is injective |
| SplitOrder.LocationInDirectory | src/container/lfhashmap.c:223-241 | buckets below 2^31 stay in the directory of 32 segments |
| LockFreeList.MatchesIsEquality | src/container/lfhashmap.c:311-326 | the comparison of a search accepts exactly the node of its key, also for sentinels, which are compared by split-order key alone |
| LockFreeList.LinkKeepsChain | src/container/lfhashmap.c:571-574 | linking a key at an unmarked predecessor keeps links, order and uniqueness |
| LockFreeList.UnlinkKeepsChain | src/container/lfhashmap.c:293-300 | unlinking a marked node keeps them |
| LockFreeList.MarkKeepsChain | src/container/lfhashmap.c:768-778 | marking keeps them |
| LockFreeList.LinkAbsent | src/container/lfhashmap.c:560-574 | when the insert compare-and-swap succeeds, its key is absent |
| LockFreeList.LinkKeepsClean | src/container/lfhashmap.c:276-339 | while a node a search stands on is unmarked, its key is never linked in front of it |
| LockFreeList.LiveReached | src/container/lfhashmap.c:276-339 | every unmarked node is reached by following links, although marked nodes keep stale links |
| LockFreeList.WalkSorted | src/container/lfhashmap.c:276-339 | a walk meets nodes, marked or not, in split order and no node twice |
| LockFreeList.UnlinkedUnreached | src/container/lfhashmap.c:293-303 | a node that was unlinked is reached from nowhere in front of it |
| LockFreeMap.StepInv | src/container/lfhashmap.c:276-427 | every step of every operation, and the doubling of the bucket count, keeps the list and search invariant |
| LockFreeMap.ElementsStep | src/container/lfhashmap.c:540-801 | the contents change only at the compare-and-swap of a successful insert or put (plus its key) and of a successful remove (minus its key); doubling the bucket count does not change them |
| LockFreeMap.DoubleMovesNothing | src/container/lfhashmap.c:583-595 | doubling the bucket count changes no node, no bucket and no call in progress |
| LockFreeMap.DirectoryHolds | src/container/lfhashmap.c:231-248 | in every run every bucket in use is below the current bucket count, which is at most 2^31, and has its place in the directory of 32 segments |
| LockFreeMap.Linearizable | src/container/lfhashmap.c:540-801 | in every run each answer of insert, put, get and remove is right at one instant between the start and the end of its call |
| LockFreeAnswers.EveryCallAnswered | src/container/lfhashmap.c:540-801 | in every run a call of insert, put, get or remove ends exactly with an answer, and with one of its own: inserted or exists, inserted or updated, found or not, removed or not |
| LockFreeAnswers.UndisturbedCall | src/container/lfhashmap.c:540-801 | from any reachable state, whatever others have left half done, a call that is not disturbed ends, and answers and changes the contents as on a plain set |
| LockFreeAnswers.CallEnds | src/container/lfhashmap.c:276-339 | every call under way can be finished by its own thread |
| LockFreeAnswers.BucketIsSet | src/container/lfhashmap.c:346-427 | a bucket set-up that has ended leaves the bucket in its slot |
| LockFreeMap.WalkFromRoot | src/container/lfhashmap.c:276-339 | in every run the walk from the root meets every element and no retired node, and all the nodes it meets, marked or not, come in split order and once each |
| LockFreeMap.MissedIsLarger | src/container/lfhashmap.c:402-414 | in every run a failed search ends at the end of the list or at a node with a larger split-order key, never an equal one |
| LockFreeMap.RetiredOnce | src/container/lfhashmap.c:302 | no node is handed to reclamation twice |
| LockFreeMap.HeadPrecedes | src/container/lfhashmap.c:346-396 | a search starts from a sentinel in front of its key, at whatever table size the bucket count was read |
| AlarmClock.FiresAtDeadline | src/module/eventloop.c:591-616 | in any history the clock allows, an alarm that is not cancelled fires at its deadline, not before it, and not a second time at it |
| AlarmClock.FiresEveryInterval | src/module/eventloop.c:563-568 | the firing times of a repeating alarm that is not cancelled are its deadline plus 0, 1, 2, ... intervals, up to the end of the history, and its next deadline is the first one left |
| AlarmClock.QuietUntilDue | src/module/eventloop.c:591-616 | nothing fires, is armed or is cancelled before the first deadline |
| AlarmClock.FiresOnlyAtDeadline | src/module/eventloop.c:591-616 | every firing answers a deadline at exactly that time |
| AlarmClock.StaysOnTime | src/module/eventloop.c:591-616 | no alarm is ever overdue |
| TimingWheel.TickMoves | src/module/eventloop.c:593-612 | whatever a tick leaves misplaced is in a slot that this tick refiles, at all four levels and beyond the span of level 3 |
| TimingWheel.DueUnderHand | src/module/eventloop.c:539-547 | a correctly filed timer is due exactly if it is in the slot under the hand |
| TimingWheel.RefiledTimely | src/module/eventloop.c:472-511 | filing by distance puts every timer where the hand will find it |
| TimingWheel.Wheel.Insert | src/module/eventloop.c:472-511 | files a timer, in one list only |
| TimingWheel.Wheel.Cascade | src/module/eventloop.c:516-534 | every timer of the slot is refiled by its distance, every other timer is where it was |
| TimingWheel.Wheel.Turn | src/module/eventloop.c:593-612 | a tick refiles exactly the timers whose slot comes up, on whatever level, and then every timer is in its place |
| TimingWheel.Wheel.FireOne | src/module/eventloop.c:546-585 | what follows the firing is exactly the commands of its callback, in order: an Arm with its deadline for each arming, a Cancel for each cancelled timer that is there and not due; the history is one the clock allows; a timer that cancels itself is gone; every armed timer that is not cancelled again is set; a repeating timer is set to its old expiry plus the interval; no other timer is touched |
| TimingWheel.Wheel.FireSlot | src/module/eventloop.c:539-586 | everything due fires, once, each with the commands of its callback, and nothing else happens; timers that are not due and not cancelled stay where they are |
| TimingWheel.Wheel.Advance | src/module/eventloop.c:591-616 | advancing to any time emits a history that obeys the script and that the alarm clock allows, from the old alarms to the new ones; a timer whose slot has not come up is where it was |
| TimingWheel.Wheel.RunCallback | src/module/eventloop.c:557-561 | the wheel does for each command of a callback what the command does to a plain set of alarms |
| TimerScript.ObeyedLeads | src/module/eventloop.c:591-616 | a history that obeys a script is one the clock allows, in which only callbacks act |
| TimerScript.SelfCancelEnds | src/module/eventloop.c:1428-1432 | in any such history a timer whose callback cancels it does not fire again and is gone at the end |
| TimerScript.CancelEnds | src/module/eventloop.c:1414-1440 | nor does another timer that a callback cancels before it is due |
| TimerScript.ArmedFires | src/module/eventloop.c:1361-1405 | every timer a callback arms fires at its deadline, or is still set at the end, unless it is cancelled |
| TimingWheel.WaitingStays | src/module/eventloop.c:593-612 | a tick leaves a timer of a higher level alone until its slot comes up, also beyond the span of level 3 |
| TimingWheel.Wheel.AddTimer | src/module/eventloop.c:1361-1405 | arms a timer at the later of now and the next tick, plus the timeout, and files it by its distance |
| TimingWheel.Wheel.DelTimer | src/module/eventloop.c:1414-1440 | cancels a timer if there is one, and reports whether there was |
| TimingWheel.Wheel.NextWait | src/module/eventloop.c:626-656 | the sleep is at most 10 ms; it is shorter only because of a level-0 timer due by its end, and zero only if one is due; it never passes a level-0 timer, and passes no timer at all if it ends by the next multiple of 256 ms after the hand |
| TimingWheel.SleepsPast | src/module/eventloop.c:640-655 | the converse: for every hand and clock whose longest sleep goes past that multiple, a wheel built with the operations sleeps past a timer |
| TimingWheel.SleepsPastFrom | src/module/eventloop.c:472-655 | the same from any start that files the timer in level 1 |
| TimerTable.CanShiftMeans | src/module/eventloop.c:430-439 | the wrapped and unwrapped tests of removal together say: the hole is on the way of the entry |
| TimerTable.Table.Probe | src/module/eventloop.c:404-412 | a probe ends at the entry of its identity exactly if there is one; it ends whenever a slot is free or the identity is there |
| TimerTable.Table.Find | src/module/eventloop.c:399-413 | finds exactly the timers in the table, also in a full one |
| TimerTable.Table.Insert | src/module/eventloop.c:343-394 | maps the identity to the timer, or fails without memory and changes nothing; afterwards a slot is free exactly if one was and this was not timer number 2^30; replacing a timer works in a full table too |
| TimerTable.Table.FullNeverEnds | src/module/eventloop.c:381-389 | without a free slot every slot is used, and by another timer for an identity that is not there, so its probe has no end |
| TimerTable.Table.RemovalNeverEnds | src/module/eventloop.c:426-443 | without a free slot the scan of a removal stands at a used slot after any number of turns |
| TimerTable.FillUp | src/module/eventloop.c:343-394 | for every hash function insertions lead to a full table of 2^30 timers |
| TimerTable.Table.Grow | src/module/eventloop.c:348-380 | rehashing keeps the map, also of a full table; afterwards the table is less than seven tenths full unless it is at its largest; capacities are powers of two |
| TimerTable.Table.CloseHole | src/module/eventloop.c:426-448 | backward-shift removal takes out one entry and keeps every probe path full |
| TimerTable.Table.Remove | src/module/eventloop.c:418-454 | removes the identity, if present, and nothing else |
| TimerTable.Table.Vacate | src/module/eventloop.c:444-447 | clearing the last hole breaks no probe path |
| SharedRing.StepInv | src/container/shm_ring.c:140-290 | every step of producer and consumer keeps the frame invariant |
| SharedRing.ReceivedIsPrefix | src/container/shm_ring.c:196-281 | in every run, with stale cursor reads, cancels, short commits and wraps, the messages read are a prefix of those published, with the same kind, length and words |
| SharedRing.UnreadUntouched | src/container/shm_ring.c:140-213 | no step changes a word between the cursors |
| SharedRing.NeverCorrupt | src/container/shm_ring.c:215-268 | the consumer never answers with its corruption error, and after a wrap marker finds a message |
| SharedRing.EmptyRefuses | src/container/shm_ring.c:160-186 | an empty ring answers "full" exactly if the frame fits neither before the end nor before the cursor |
| SharedRing.HalfAlwaysFits | src/container/shm_ring.c:160-186 | a frame of at most half the capacity, rounded up, always fits an empty ring |
| SharedRing.LargerCanBeRefused | src/container/shm_ring.c:160-186 | for every larger frame there is a run, from any fresh ring, to an empty ring that answers "full"; the refusal changes nothing |
| RingDelivery.ReserveExactly | src/container/shm_ring.c:140-194 | for every state and every value the read cursor had: "invalid" exactly for frames longer than the capacity less one word, otherwise "full" exactly if the place at the cursor, or at the next multiple of the capacity if the frame does not fit before the end, is not free |
| RingDelivery.ReserveGives | src/container/shm_ring.c:140-194 | in every run a granted reservation is of that place, and a refused one changes nothing |
| RingDelivery.PublishedAsWritten | src/container/shm_ring.c:196-213 | in every run a published message has the kind and length it was sealed with, and each word last written since the reservation |
| RingDelivery.NextIsReceived | src/container/shm_ring.c:215-281 | in every run, whenever something is unread, the steps of the consumer bring the next message |
| SharedRing.InBounds | src/container/shm_ring.c:188-281 | no access leaves the buffer |
| TicketQueue.StepInv | src/container/lfqueue.c:111-175 | every step keeps: head <= tail <= head + capacity, and each cell holds what its current ticket says |
| TicketQueue.Delivered | src/container/lfqueue.c:144-175 | the value dequeued with a ticket is the one enqueued with it, and no other dequeue returns that ticket |
| TicketQueue.TakenInOrder | src/container/lfqueue.c:144-175 | tickets are taken in the order in which they were claimed |
| TicketQueue.FreeForTail | src/container/lfqueue.c:121-131 | a cell free for the next ticket was released by its previous consumer, and one that is behind was not |
| TicketQueue.WritesAfterRelease | src/container/lfqueue.c:121-139 | in every run a producer writes only into the cell of its own ticket, after the consumer of the ticket one turn before has released it |
| TicketQueue.FullAnswer | src/container/shm_ring.c:426-456 | "full" is answered only if all cells hold items or the oldest consumer has not released its cell |
| TicketQueue.EmptyAnswer | src/container/shm_ring.c:458-494 | "empty" is answered only if there is no item or the oldest is not yet published |
| QueueAnswers.AnsweredValue | src/container/lfqueue.c:111-175 | in every run the value a dequeue answers was passed to an earlier enqueue, which claimed the ticket it comes out under; no other dequeue answers with that ticket |
| QueueAnswers.FullExactly | src/container/lfqueue.c:121-135 | "full" is answered exactly at the tail with the cell of the ticket one turn before not released |
| QueueAnswers.EmptyExactly | src/container/lfqueue.c:154-168 | "empty" is answered exactly at the head with no item or an unpublished one |
| QueueAnswers.EndsWithAnswer | src/container/lfqueue.c:111-175 | every call ends with exactly one answer of its own kind |
| QueueAnswers.EnqueueAlone | src/container/lfqueue.c:111-142 | an enqueue that is not disturbed appends its value exactly if there is room |
| QueueAnswers.DequeueAlone | src/container/lfqueue.c:144-175 | a dequeue that is not disturbed takes and answers the oldest item exactly if it is published |
| WorkStealing.StepInv | src/module/threadpool.c:109-173 | every step of the owner and of all thieves keeps the deque invariant |
| WorkStealing.HandedOutOnce | src/module/threadpool.c:123-173 | a pop or steal that succeeds returns a whole task, as pushed, that nobody had taken, although slots are reused and the two words are read separately |
| WorkStealing.HandedOutEnd | src/module/threadpool.c:123-173 | thieves take the oldest task, the owner the newest |
| WorkStealing.NoTaskTwice | src/module/threadpool.c:109-173 | in a whole run no push is returned twice |
| WorkStealing.NoTaskLost | src/module/threadpool.c:109-173 | at every moment of every run each push has been returned by exactly one step or lies in the deque with its task, and never both |
| WorkStealing.EmptyMeansReturned | src/module/threadpool.c:109-173 | when the deque is empty between calls, every push has been returned |
| WorkStealing.FailedPopRestores | src/module/threadpool.c:138-154 | a pop that gets nothing restores bottom |
| DequeAnswers.PushRefused | src/module/threadpool.c:109-121 | a push is refused exactly if every slot is in use |
| DequeAnswers.PopFindsEmpty | src/module/threadpool.c:123-155 | a pop gives up at once exactly if there is no task |
| DequeAnswers.StealFindsEmpty | src/module/threadpool.c:157-173 | a steal gives up at once exactly if the top it read is not below the bottom |
| DequeAnswers.PushAlone | src/module/threadpool.c:109-121 | a push on its own adds its task as the newest, or changes nothing |
| DequeAnswers.PopAlone | src/module/threadpool.c:123-155 | a pop on its own hands out the newest task |
| DequeAnswers.PopEmptyAlone | src/module/threadpool.c:150-154 | a pop on its own of an empty deque changes nothing |
| DequeAnswers.StealAlone | src/module/threadpool.c:157-173 | a steal on its own hands out the oldest task, whatever the owner is doing, or changes nothing |
| RobinHood.PathFull | src/container/hashmap.c:139-163 | every slot between a key's home and the key holds an entry at least as far from its home |
| RobinHood.HashMap.FindSlot | src/container/hashmap.c:139-163 | finds a key exactly if it is mapped; the early exit loses none, and the probe ends |
| RobinHood.HashMap.InsertEntry | src/container/hashmap.c:169-190 | displacement insertion adds one mapping and keeps the probe-length invariant |
| RobinHood.HashMap.ShiftBack | src/container/hashmap.c:247-266 | backward-shift deletion removes one mapping and keeps it |
| RobinHood.HashMap.RemoveKey | src/container/hashmap.c:235-268 | removes the key, reporting whether it was there |
| RobinHood.HashMap.Rehash | src/container/hashmap.c:212-220 | moving every entry to a new array keeps the map |
| RobinHood.HashMap.EnsureCapacity | src/container/hashmap.c:195-231 | growing keeps the map and gives the least power of two that is enough and at least 16; it fails exactly if it has to grow and there is no memory, and then nothing changes |
| RobinHood.HashMap.Put | src/container/hashmap.c:533-577 | maps the key to the value, and fails exactly if the key is new and there is no memory for it or for the growth that is due; the array afterwards is the old one or a new one |
| RobinHood.Replay | src/container/hashmap.c:533-634 | every series of stores, loads and deletions gets the answers a plain map gives, and leaves the map a plain map would be |
| RobinHood.HashMap.Get | src/container/hashmap.c:618-634 | the value of the key, if mapped |
| TaskGraph.Graph.Compile | src/module/taskgraph.c:188-261 | succeeds exactly if no path leads from a node back to itself; then the roots are the nodes nothing leads to |
| TaskGraph.Graph.Kahn | src/module/taskgraph.c:200-246 | counting in-degrees yields a topological order or a cycle; the queue never holds more than all nodes |
| TaskGraph.Graph.AddEdge | src/module/taskgraph.c:151-186 | adds exactly one edge, once, keeping in-degrees |
| TaskGraph.Graph.AddNode | src/module/taskgraph.c:109-149 | adds an isolated node unless the graph is compiled |
| TaskGraph.CycleFrom | src/module/taskgraph.c:240-246 | nodes that all have a predecessor among them contain a cycle |
| TaskGraph.OrderedIsAcyclic | src/module/taskgraph.c:240-246 | a topological order excludes cycles |
| TaskRun.StepInv | src/module/taskgraph.c:263-337 | every step of a run keeps: each counter is the number of predecessors that have yet to report |
| TaskRun.StartsAfterPredecessors | src/module/taskgraph.c:263-293 | a task starts only after all it depends on has finished |
| TaskRun.StartsOnce | src/module/taskgraph.c:263-293 | no task is started twice in a run |
| TaskRun.StartsExactlyOnce | src/module/taskgraph.c:263-337 | a run that cannot go on has started every task exactly once |
| TaskRun.Progress | src/module/taskgraph.c:263-337 | while a task is not done some step is possible |
| TaskRun.PendingMeansDone | src/module/taskgraph.c:289-293 | the completion counter is zero exactly if all tasks are done |
| TaskRun.EveryRunCompletes | src/module/taskgraph.c:295-337 | every run is bounded, and one that cannot go on has done every task |
| StableSort.Sort | src/algorithm/sort.c:436-570 | the result is sorted and, key by key, has the same elements in the same order, with or without memory for the scratch buffer |
| SortOrder.RankOrders | src/algorithm/sort.c:572-581 | every comparator that is a total preorder on the elements is given by an integer key |
| SortOrder.StableByComparator | src/algorithm/sort.c:572-581 | for every such comparator the stable sort arranges the elements in order, each once, and those it does not tell apart in the order they came in |
| SortOrder.SortedByComparator | src/algorithm/sort.c:291-298 | for every such comparator a sorted permutation by key arranges the elements in order, each once |
| StableSort.SamePermutes | src/algorithm/sort.c:572-581 | such a result is a permutation |
| StableSort.MergeRuns | src/algorithm/sort.c:374-434 | merges neighbouring runs stably in either direction with a scratch buffer as long as the shorter one |
| StableSort.MergedBack | src/algorithm/sort.c:404-433 | merging from the back gives the same result as merging from the front |
| StableSort.MergeAt | src/algorithm/sort.c:497-566 | the stack keeps adjacent sorted runs that cover the scanned prefix, in a scratch buffer of half the array |
| StableSort.NextRun | src/algorithm/sort.c:464-495 | the next run is sorted, 16 long or longer unless it reaches the end, and stably made |
| StableSort.ReverseRun | src/algorithm/sort.c:360-372 | turning a strictly descending run around is stable |
| StableSort.InsertionSort | src/algorithm/sort.c:115-125 | sorts a stretch stably |
| PdqSort.QSort | src/algorithm/sort.c:291-298 | the result is a sorted permutation |
| PdqSort.Loop | src/algorithm/sort.c:216-276 | every path sorts its stretch and moves nothing else; the recursion depth is at most the logarithm of the length |
| PdqSort.Partition | src/algorithm/sort.c:242-261 | three parts: smaller than, equal to and larger than the pivot |
| PdqSort.Median3 | src/algorithm/sort.c:187-204 | the index of a median of three |
| PdqSort.HeapSort | src/algorithm/sort.c:67-79 | the fallback sorts its stretch and moves nothing else |
| PdqSort.SiftDown | src/algorithm/sort.c:50-65 | restores the heap below one element |

## Left out

- Weak memory orderings, 64-bit wrap-around of counters, times and tickets, and cache-line layout: the concurrent models are sequentially consistent, and integers are unbounded except where a wrap matters (the generation counter of the regex machine, split-order keys).
- A compare-and-swap that fails spuriously appears only as a retry step, and steps that change nothing shared are merged with their neighbours.
- Regex parsing, character-class bitmaps and backreferences: the model starts from a syntax tree without backreferences. Of the matches with the start that `Search` states, which one is reported is not stated, nor which of several ways of matching the captures come from.
- Ebr: critical sections on one handle do not nest, unregistering with its orphan transfer is one step, memory for retire nodes is always there, and an advance may be tried at any time, not only at the batch threshold.
- LockFreeMap: values are not modelled, because `put` may store into a node that is being removed; iterators and the element counter are left out too, so the bucket count may double at any time. A call starts from an existing bucket of its key at the current bucket count or a smaller one. A thread sets up missing parent buckets before a call instead of inside it.
- TimingWheel.Wheel.FireOne: a callback that cancels another timer that is due on the same tick has no effect in the model, as that list has been taken off the wheel by then; slots are sequences, so the links of their lists are not modelled.
- TimerTable: calls that never end are not modelled as methods, that is, on a full table, removal and calls with an identity that is not there.
- SharedRing: the capacity is a whole number of eight-byte words and at least one; channel headers, attaching and waking up are left out, and a consumer reads a whole payload before it consumes the frame.
- RobinHood: the hash function is fixed for the life of a map, and masking is written as a remainder, as the capacity is a power of two; key ownership and iterators are left out.
- TaskRun: nodes run inline when the pool refuses them are covered as nodes that start at once; the wait group is its counter.
- StableSort.InsertionSort: the allocation of its one-element buffer always succeeds; the sorts compare integer keys, and `SortOrder` carries the results over to comparators that are total preorders.
- Kahn's queue in TaskGraph and the run stack in StableSort are sequences with a proved bound instead of fixed arrays.
- Sockets, signals, streams, JSON, tree map, skip list, thread pool sleeping, parallel sort, allocators and the simple containers: input and output, foreign calls, or easy members.
