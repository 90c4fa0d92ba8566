# Verified models of the OCaml runtime

A Dafny 4.11 project that models the hardest parts of the multicore OCaml runtime
(`runtime/`) and proves what they are for. `dafny verify dfyconfig.toml` checks all of it.

| file | what it models |
|---|---|
| `DomainStopTheWorld.dfy` | the stop-the-world protocol of `domain.c`: requests, interrupts, the enter barrier, domains that join and leave, suspension of requests; a state machine of atomic steps in every interleaving, judged by an independent monitor of its visible events |
| `DomainProgress.dfy` | freedom from deadlock of that protocol: every section that is begun can be brought to its end by the steps its participants owe it, and only so many of them fit into it |
| `DomainRequests.dfy` | what becomes of requests: the flag that was asked for, when they are given up, and what succeeds when nothing is in the way |
| `DomainBackupThread.dfy` | the hand-shake between main thread, backup thread and senders of interrupts (`domain.c`); a second state machine |
| `BackupProgress.dfy` | what is asked of the backup thread is done, within a bounded number of owed steps |
| `LinearProbing.dfy`, `ProbedMap.dfy` | the theory of open addressing that three tables of the runtime share: searching, inserting, moving, Knuth's in-place deletion, and deletion by re-inserting the rest of the cluster |
| `PositionTable.dfy` | the table of met objects in `extern.c` |
| `Marshal.dfy`, `MarshalBytes.dfy` | writing a heap graph with sharing and cycles (`extern.c`) and reading it back (`intern.c`), first as codes, then as the bytes of the format |
| `ReachableWords.dfy` | the walk that tells how much memory each of several values owns (`extern.c`) |
| `FrameDescriptors.dfy` | the table of frame descriptors: registering, unregistering, cleaning, searching (`frame_descriptors.c`) |
| `DynamicBindings.dfy`, `DynamicCache.dfy` | tables of binding stacks, and the cache in front of the walk up the parent fibers (`dynamic.c`, `fiber.c`) |
| `FiberStackCache.dfy` | the cache of fiber stacks with one popping owner and many pushers (`fiber.c`); a state machine |
| `FiberCacheUse.dfy` | that cache at work: what is freed is handed out again, and draining empties it |
| `FiberLocalScan.dfy` | the one-pass scan of local allocations (`fiber.c`) |
| `StructuralCompare.dfy`, `GenericHash.dfy` | structural comparison and the hash that must be compatible with it (`compare.c`, `hash.c`) |
| `CompareLaws.dfy` | what comparison means for each kind of value, and for the operators of the language |
| `HashLaws.dfy`, `HashPromises.dfy` | what the hash keeps apart, and the hashes that the test suite promises for all platforms |
| `BigarrayProxy.dfy`, `BigarrayIndex.dfy` | shared ownership of bigarray data, as a state machine, and the index arithmetic of views (`bigarray.c`) |
| `HexFloat.dfy`, `HexDouble.dfy`, `HexText.dfy` | doubles in hexadecimal notation (`floats.c`): digits and mantissa, then the 64 bits with the second rounding of `ldexp`, and the characters |
| `Options.dfy`, `Arithmetic.dfy`, `ByteOrder.dfy`, `WordBits.dfy` | a type for what may be missing; facts about products, quotients and powers of two; numbers as bytes and as words of 32 bits |
| `Blake2.dfy` | BLAKE2b as a stream (`blake2.c`) against section 3.3 of RFC 7693 |

Concurrent code is a state machine: a `State`, an `Action` for each atomic access to shared
memory, what an action may do and does, and runs as sequences of steps from an initial
state. Memory is sequentially consistent. Code that changes objects or arrays in place is a
class or a method with loops, proved against functions on values; code without state is
functions. Sizes, addresses and counters are unbounded integers unless wrap-around matters,
in which case it is written out.

Eight things came out of the proofs that a reader of the code may want to know; each is
stated exactly, with the condition under which the code is right.

- Unregistering frame tables follows a NULL link when the last table of the list is named
  and more tables are named than are registered (`FrameDescriptors.Table.Unregister`,
  `FrameDescriptors.UnregisterMayCrash`).
- When memory for a bigarray proxy is not found, the half-made view is finalised as if it
  owned the data, which is freed under the view it was made from
  (`BigarrayProxy.FailureFreesSharedData`).
- `compare null (Forward null)` is negative while `compare (Forward null) null` is zero;
  comparison is antisymmetric at a value exactly when no forwarding block in it leads to
  null (`StructuralCompare.AntisymmetricIffClean`).
- Behind more than 1000 forwarding links a value still compares equal but hashes
  differently (`GenericHash.LongChainsBreakHashing`).
- A reached local block that points to itself passes for a forward pointer and keeps its
  mark after the scan (`FiberLocalScan.SelfPointerKeepsMark`).
- A limit on cached stacks above `MAX_STACK_CACHE_LIMIT`, which the run-time parameter does
  not exclude (runtime/gc_ctrl.c:473), lets stacks into a disabled cache
  (`FiberStackCache.PushWhileDisabled`); everything else about the cache holds for any limit.
- An empty bigarray that was allocated may run out of memory when its layout is changed,
  because the check for overflow then meets the other dimensions before the zero
  (`BigarrayIndex.EmptyMayNotChangeLayout`, `BigarrayIndex.ChangeLayoutFits`).
- In the subnormal range `ldexp` rounds a second time, and a hexadecimal number may be read
  as a double that is not the nearest (`HexDouble.SecondRoundingHurts`, `HexDouble.Twice`).

The diagram at runtime/domain.c:136-157 draws `BT_TERMINATE` after
`BT_IN_BLOCKING_SECTION`; in the code the request to terminate is stored while the main
thread runs OCaml code, after `BT_ENTERING_OCAML`, and the model follows the code
(`DomainBackupThread.MessageCycle`).

## Model

| member | source | states |
|---|---|---|
| `DomainStopTheWorld.NoRunIsRefused` | runtime/domain.c:1760-1894 | in every run, whatever the interleaving, the monitor accepts the log: at most one section at a time, it captures exactly the live domains, each participant runs the callback once and (with a barrier) only after all have arrived, the section ends only when all have finished, nobody joins during a section, nobody leaves while it owes the section anything |
| `DomainStopTheWorld.ExactlyOnce` | runtime/domain.c:1697-1759 | between the claim and the end of a section every captured participant runs the callback exactly once and nobody else runs it |
| `DomainStopTheWorld.CountersTellTheTruth` | runtime/domain.c:1597-1613 | in every state of every run a leader is set exactly while a section is active; once a request is set up, `num_domains_still_processing` is the number of participants that have not finished; between sections nobody is pending, and the live domains are those the log says |
| `DomainStopTheWorld.AssertionsHold` | runtime/domain.c:1847-1853 | the assertions on the way hold at every step of every run: nobody is pending when it is sent an interrupt, only running domains handle one, a leaving domain is found in the array, and the slot that joins is free and not pending |
| `DomainStopTheWorld.SuspensionBlocksRequests` | runtime/domain.c:643-671 | while a creating thread has requests suspended no section is claimed |
| `DomainStopTheWorld.ClaimNeedsNoSuspension` | runtime/domain.c:1787-1808 | no step claims a section while a request is suspended |
| `DomainStopTheWorld.StepTestBarrier` | runtime/domain.c:1649-1686 | a handler goes round the enter barrier exactly when the current section has none, in synchronous and asynchronous sections alike |
| `DomainStopTheWorld.LeaverOwesNothing` | runtime/domain.c:2692-2719 | a terminating domain that holds the lock and has no interrupt pending has finished every section it was captured for, and no leader is sending |
| `DomainStopTheWorld.StepArrive` | runtime/domain.c:1649-1675 | arriving at the barrier keeps the invariant: the last to arrive is the one that releases it |
| `DomainStopTheWorld.StepSend` | runtime/domain.c:1847-1853 | sending an interrupt keeps the invariant, and its target had none pending |
| `DomainStopTheWorld.StepSetUp` | runtime/domain.c:1813-1829 | setting the request up keeps the invariant: nobody is in the section yet |
| `DomainStopTheWorld.StepDecrement` | runtime/domain.c:1597-1613 | taking oneself off the counter keeps the invariant; exactly one domain brings it to zero |
| `DomainStopTheWorld.StepClearLeader` | runtime/domain.c:1605-1612 | the leader is cleared only when everybody has run the callback and finished |
| `DomainStopTheWorld.StepTakeUp` | runtime/domain.c:402-412 | taking an interrupt up keeps the invariant: the section it belongs to is the current one |
| `DomainStopTheWorld.StepLeave` | runtime/domain.c:346-366 | swapping a leaving domain out of the array keeps its prefix exactly the live domains |
| `DomainStopTheWorld.StepJoin` | runtime/domain.c:327-344 | a domain joins only between sections, into a free slot with no interrupt pending |
| `DomainStopTheWorld.RunInv` | runtime/domain.c:93-162 | the invariant holds in every state of every run |
| `DomainRequests.ClaimIsWhatWasAsked` | runtime/domain.c:1770-1829 | in every run a section is synchronous exactly when its leader's last request asked for that |
| `DomainRequests.FlagIsAsked` | runtime/domain.c:1770-1829 | in every run the flag a domain carries from the request to the last interrupt it sends is the one it asked for |
| `DomainRequests.RequestIsGranted` | runtime/domain.c:1787-1811 | with no leader, a free lock and nothing suspended, a request leads to a section of all live domains with its own flag |
| `DomainRequests.BarrierIsClosed` | runtime/domain.c:1819-1829 | the enter barrier is closed exactly for a synchronous section of more than one domain |
| `DomainRequests.GivenUpOnlyIf` | runtime/domain.c:1781-1796 | a request is given up if and only if there is a leader already or the lock is taken at the first attempt, never because requests are suspended; then the domain looks for the interrupt it may have been sent |
| `DomainRequests.MadeToWaitIff` | runtime/domain.c:1798-1802 | under the lock a request waits exactly when requests are suspended and nobody leads, and claims exactly when they are not |
| `DomainRequests.TerminationLeaves` | runtime/domain.c:2692-2719 | a terminating domain that gets the lock with no interrupt pending leaves the set of participants |
| `DomainRequests.CreationJoins` | runtime/domain.c:646-675 | with no section on, creation takes the next free slot, and fails exactly when there is none |
| `DomainRequests.SuspendsAtSecondWait` | runtime/domain.c:649-667 | in every run a creating thread suspends requests from the second section on that it has to wait for, and not before |
| `DomainRequests.SleepersAreAsleep` | runtime/domain.c:653-661 | in every run only domains that wait to make a request, and threads that wait to create a domain, are on the condition variables |
| `DomainProgress.EverySectionEnds` | runtime/domain.c:1739-1752 | freedom from deadlock: from every state of every run in which a section is on, after any steps that go on with it, further such steps lead to its end, and no more than a bounded number of them fit into it; none is a new request, termination or creation, or a wake-up without a signal |
| `DomainProgress.SomeStepIsPossible` | runtime/domain.c:1649-1675 | while a section is on, the holder of the lock, a participant that owes the section something, or the last to finish can take a step |
| `DomainProgress.EveryStepAdvances` | runtime/domain.c:1760-1894 | every step that goes on with what was begun ends the section or lowers what remains to be done, creating threads that wait for its end included |
| `DomainProgress.OnlySoManySteps` | runtime/domain.c:1739-1752 | no livelock: however such steps are ordered, no more than what remains fit into the section |
| `DomainProgress.SectionCanEnd` | runtime/domain.c:1597-1613 | a sequence of such steps that ends with the leader cleared |
| `DomainProgress.HolderGoesOn` | runtime/domain.c:1739-1752 | whoever holds `all_domains_lock` can take a step with it; nobody waits for anything while holding it |
| `DomainProgress.NobodyOversleeps` | runtime/domain.c:653-667 | a domain sleeps for suspended requests only while some creator suspends them and no section is on; a creator sleeps for the end of a section only while one is on |
| `DomainProgress.ForgottenStep` | runtime/domain.c:1798-1803 | no step leaves a sleeper behind: both broadcasts come with what is waited for |
| `DomainProgress.LastStep` | runtime/domain.c:1605-1612 | when all participants have finished, one of them is on its way to clear the leader |
| `DomainProgress.ReleaserStep` | runtime/domain.c:1649-1675 | when all have arrived at the closed barrier, one of them is about to open it |
| `DomainProgress.RunSane` | runtime/domain.c:93-162 | the invariants behind this hold in every state of every run |
| `DomainBackupThread.NoLostWakeup` | runtime/domain.c:427-447 | in a blocking section with an interrupt pending the backup thread is not asleep unless the main thread or a sender still owes it a signal |
| `DomainBackupThread.NoLostTermination` | runtime/domain.c:1258-1272 | a backup thread asked to terminate is not asleep unless the main thread still owes it the signal |
| `DomainBackupThread.WokenDoesNotSleep` | runtime/domain.c:1178-1207 | the backup thread decides to wait only when it is not wanted or a signal is still owed to it |
| `DomainBackupThread.HandledUnderDomainLock` | runtime/domain.c:1192-1203 | an interrupt is taken off only by the holder of the domain lock, never by both threads at once |
| `DomainBackupThread.MessageCycle` | runtime/domain.c:2560-2603 | in every run `backup_thread_msg` takes only the transitions of its cycle |
| `DomainBackupThread.SenderLosesNone` | runtime/domain.c:436-447 | a sender stops owing a signal only by giving it or by seeing that none is needed |
| `DomainBackupThread.RunInv` | runtime/domain.c:1178-1256 | the invariant on locks, message and owed signals holds in every run, slots being reused included |
| `BackupProgress.EveryRequestIsServed` | runtime/domain.c:1178-1256 | in every run, an interrupt pending in a blocking section is handled and a request to terminate obeyed after a bounded number of owed steps, whatever their order; until then another one is possible; none is a spurious wake-up or a return of the main thread |
| `BackupProgress.EveryStepAdvances` | runtime/domain.c:1178-1207 | every owed step of main thread, backup thread or sender does what was asked for or comes closer to it |
| `BackupProgress.SomeStepIsPossible` | runtime/domain.c:1178-1207 | until then one of them is not blocked |
| `BackupProgress.ServedByBackup` | runtime/domain.c:1192-1203 | it is the backup thread that takes the interrupt off, under the domain lock, which it gives back before nothing is left to serve |
| `BackupProgress.SlotIsFree` | runtime/domain.c:1208-1215 | when a termination is over, both threads are gone and the message is the initial one |
| `BackupProgress.SendAndPoll` | runtime/domain.c:436-447 | sending makes the interrupt pending, polling takes it off |
| `LinearProbing.StopAtEmpty` | runtime/frame_descriptors.c:1222-1234 | a search may stop at the first empty slot: the key is nowhere in the table |
| `LinearProbing.InsertKeeps` | runtime/frame_descriptors.c:228-233 | an entry put where its walk first meets an empty slot is found, and hides no other |
| `LinearProbing.Refill` | runtime/frame_descriptors.c:249-266 | moving an entry back into the hole leaves one hole, at its old place, and the same entries |
| `LinearProbing.HoleIsHarmless` | runtime/frame_descriptors.c:250-255 | when the walk from the hole meets an empty slot, every remaining entry is reachable from its home |
| `LinearProbing.HasRoom` | runtime/frame_descriptors.c:48-59 | fewer entries than slots leave an empty slot, so every walk ends |
| `ProbedMap.RehashStep` | runtime/dynamic.c:379-384 | putting the next entry of the cluster in again keeps the invariant: only entries still to come may have a gap on their way |
| `ProbedMap.RehashStarts` | runtime/dynamic.c:371-378 | after the deletion only the rest of the cluster is affected |
| `ProbedMap.RehashEnds` | runtime/dynamic.c:379-384 | at the end of the cluster no entry is hidden |
| `ProbedMap.StoreAt` | runtime/extern.c:332-380 | storing at the slot a search ended at updates the represented map at that key and nowhere else |
| `ProbedMap.MovedOne` | runtime/extern.c:272-325 | moving the entries to a new table one by one moves each key once |
| `PositionTable.Hash` | runtime/extern.c:60-86 | the hash is a slot of the table |
| `PositionTable.TwoThirds` | runtime/extern.c:227 | the size from which the table grows is two thirds of its capacity |
| `PositionTable.Table.Lookup` | runtime/extern.c:332-348 | finds exactly the data recorded for the object, and the slot where it belongs |
| `PositionTable.Table.Record` | runtime/extern.c:350-372 | adds one binding, counts it, and grows the table before it is two thirds full |
| `PositionTable.Table.Update` | runtime/extern.c:374-380 | replaces the data of a recorded object |
| `PositionTable.Table.Resize` | runtime/extern.c:272-325 | the larger table represents the same map |
| `PositionTable.Table.Reinsert` | runtime/extern.c:309-318 | each old entry is added to the new table |
| `Marshal.RoundTrip` | runtime/extern.c:811-966 | for every heap of strings, floats, float arrays and blocks that are written field by field: writing a value and reading the codes back, whatever follows them, gives an isomorphic copy of exactly the reached non-empty blocks; it fails exactly when an abstract block or a continuation is reached; `size_64` is the words of those blocks |
| `Marshal.Writer.Extern` | runtime/extern.c:811-966 | on such heaps the explicit-stack walk terminates, cycles and sharing included, fails exactly on reached abstract blocks and continuations, and its output rebuilds the graph |
| `Marshal.Writer.WriteItem` | runtime/extern.c:824-950 | writing one item emits a code, records and sizes a new object, and keeps the copy in agreement |
| `Marshal.Writer.Turn` | runtime/extern.c:822-961 | one turn of the loop writes the item in hand and goes on to its first field or to the next item of the stack, with fewer objects unwritten or fewer items waiting |
| `Marshal.ItemAgrees` | runtime/intern.c:492-728 | the reader makes of each code what the writer made of the item |
| `Marshal.Intern` | runtime/intern.c:451-740 | the reader's explicit-stack loop rebuilds a complete message and stops at its end, or finds that no beginning of the input is one |
| `Marshal.ReadItem` | runtime/intern.c:492-728 | one turn of the reader's loop interprets a code, stores it at its destination and schedules the fields of a new block |
| `Marshal.ReferencesInRange` | runtime/extern.c:617-631 | every back-reference distance of a readable message lies in 1..number of objects before it (0..number-1 as absolute position) |
| `Marshal.ObjectsCounted` | runtime/intern.c:506-509 | the reader's object table has one entry for each code that introduces an object |
| `Marshal.PrefixFree` | runtime/intern.c:469-474 | no complete message is the beginning of a longer one |
| `Marshal.AllWritten` | runtime/extern.c:953-961 | when the stack is empty the objects written are exactly the reached non-empty blocks, and all fields agree |
| `Marshal.ItemRefused` | runtime/extern.c:897-932 | only a reached abstract block or continuation stops the writer |
| `Marshal.CodeFits` | runtime/extern.c:579-710 | for a heap the machine can hold every code is within the range of the format |
| `Marshal.HeaderTable` | runtime/extern.c:872-896 | tags, and sizes in words: a string is padded to whole words, by at least a byte |
| `Marshal.OrdinaryTags` | runtime/extern.c:872-951 | which tags are written field by field |
| `Marshal.MachineNumbers` | runtime/extern.c:579-710 | what numbers and headers a machine heap can hold |
| `MarshalBytes.RoundTripBytes` | runtime/extern.c:811-966 | the same round trip at the level of bytes: reading the bytes, whatever follows them, gives an isomorphic copy and leaves what follows |
| `MarshalBytes.CodeRead` | runtime/intern.c:497-643 | the reader gets back every code the writer puts, with exactly the bytes behind it left |
| `MarshalBytes.IntRead` | runtime/extern.c:581-599 | integers, in the smallest of five widths, with their sign |
| `MarshalBytes.SharedRead` | runtime/extern.c:617-631 | references in four widths |
| `MarshalBytes.HeaderRead` | runtime/extern.c:635-654 | headers in three forms; tag and size survive the colour bits |
| `MarshalBytes.StringRead` | runtime/extern.c:658-679 | strings with their length in four widths |
| `MarshalBytes.FloatsRead` | runtime/extern.c:691-710 | float arrays with their length in three widths |
| `MarshalBytes.DoubleRead` | runtime/extern.c:683-687 | floats by their eight bytes |
| `MarshalBytes.ReadOn` | runtime/intern.c:470-497 | from the state after any prefix of the codes the bytes of the rest lead to the end |
| `MarshalBytes.ImmediateForms` | runtime/extern.c:581-631 | null, integers and references: first byte and width for each range, in literals |
| `MarshalBytes.HeaderForms` | runtime/extern.c:635-654 | headers in small form, or with size, colour and tag in a big-endian word |
| `MarshalBytes.StringForms` | runtime/extern.c:658-679 | strings behind their length in one of four widths |
| `MarshalBytes.FloatForms` | runtime/extern.c:683-710 | floats by their bytes, the lowest first; arrays behind their length in one of three widths |
| `ReachableWords.UniquelyReachableWords` | runtime/extern.c:1518-1544 | each root is given its own block plus exactly the non-root blocks reached, without passing through another root, from it alone; the shared size is that of blocks so reached from two or more; together they are all that is live. A root given twice counts once, as its first occurrence |
| `ReachableWords.ReachableWords` | runtime/extern.c:1502-1516 | for one root: the words of its block and of all blocks it reaches, 0 for an immediate |
| `ReachableWords.Walker.Once` | runtime/extern.c:1375-1478 | the walk terminates, returns the size of what it marked, and leaves marks and accounts true for one root more |
| `ReachableWords.Walker.Turn` | runtime/extern.c:1391-1475 | one turn of the loop visits a value and goes on to its first field or to the next that waits |
| `ReachableWords.Walker.Visit` | runtime/extern.c:1405-1447 | marks, re-marks or skips a block and charges it accordingly |
| `ReachableWords.Walker.MarkRoot` | runtime/extern.c:1489-1494 | records a root as unprocessed |
| `ReachableWords.WalkEnds` | runtime/extern.c:1471-1478 | when nothing waits, the marks tell for every block which of the roots walked so far hold it |
| `ReachableWords.ChargedAfterMarking` | runtime/extern.c:1433-1447 | moving a block from a root's account to the shared one keeps the accounts right |
| `ReachableWords.Conservation` | runtime/extern.c:1361-1374 | per-root sizes and shared size add up to the words of all live blocks |
| `FrameDescriptors.Table.Find` | runtime/frame_descriptors.c:1222-1234 | terminates and returns exactly the descriptor that a live or zombie table has for the address, else NULL |
| `FrameDescriptors.Table.Fill` | runtime/frame_descriptors.c:219-236 | stores every descriptor of the new tables beside the old ones |
| `FrameDescriptors.Table.Insert` | runtime/frame_descriptors.c:228-233 | one descriptor is added and no other is hidden |
| `FrameDescriptors.Table.Locate` | runtime/frame_descriptors.c:244-247 | the search for a stored descriptor ends at its slot |
| `FrameDescriptors.Table.RemoveEntry` | runtime/frame_descriptors.c:238-267 | the cyclic in-place deletion removes one descriptor and keeps every other reachable |
| `FrameDescriptors.Table.RemoveAll` | runtime/frame_descriptors.c:274-281 | removes the descriptors of one table |
| `FrameDescriptors.Table.Clean` | runtime/frame_descriptors.c:269-289 | afterwards exactly the descriptors of the live tables are stored and counted |
| `FrameDescriptors.Table.NewSize` | runtime/frame_descriptors.c:1049-1050 | the smallest power of two from 4 on with two slots for each descriptor |
| `FrameDescriptors.Table.Add` | runtime/frame_descriptors.c:1027-1075 | registers the new tables, in place or in a larger array, keeping `2 * num_descr <= capacity` |
| `FrameDescriptors.Table.Register` | runtime/frame_descriptors.c:1123-1128 | cleans and then adds: no zombie is left and the new tables are in front |
| `FrameDescriptors.Table.Unregister` | runtime/frame_descriptors.c:1162-1194 | the named tables become zombies and searches still find their descriptors; it follows a NULL link exactly when the last table is named and more are named than registered |
| `FrameDescriptors.Table.UnlinkNamed` | runtime/frame_descriptors.c:1171-1190 | the list surgery with `resume` leaves the kept tables in order and the named ones reversed in front of the zombies |
| `FrameDescriptors.Table.VisitTable` | runtime/frame_descriptors.c:1173-1189 | one turn of it: unlink the table if it is named among those left, else pass over it |
| `FrameDescriptors.Table.UnlinkAt` | runtime/frame_descriptors.c:1176-1186 | unlinks one table and moves its name behind those left |
| `FrameDescriptors.UnregisterMayCrash` | runtime/frame_descriptors.c:1176-1186 | naming the only table together with an unregistered one crashes |
| `FrameDescriptors.UnregisterKeepsDescrs` | runtime/frame_descriptors.c:1176-1180 | unlinking changes no descriptor |
| `DynamicBindings.Table.Push` | runtime/dynamic.c:332-366 | with allocation possibly failing at any growth: on success one value is pushed for one identifier, on failure no binding changes; load stays at most one half |
| `DynamicBindings.Table.Pop` | runtime/dynamic.c:368-393 | pops one value of one identifier, if it has one, whatever rehashing and shrinking that takes |
| `DynamicBindings.Table.Bind` | runtime/dynamic.c:343-365 | stores the stack of an identifier in its slot, or in the free slot where it belongs, and counts it |
| `DynamicBindings.Table.Rehash` | runtime/dynamic.c:374-384 | the rehash of the cluster terminates and hides no other identifier |
| `DynamicBindings.Table.Remove` | runtime/dynamic.c:372-391 | drops an identifier with its last value, and shrinks the table when it may |
| `DynamicBindings.Table.Resize` | runtime/dynamic.c:259-289 | all stacks move to the new array, or nothing changes when there is no memory |
| `DynamicBindings.Table.Add` | runtime/dynamic.c:246-257 | puts a stack into the first free slot of its walk, which exists |
| `DynamicBindings.Table.Search` | runtime/dynamic.c:309-330 | terminates at the slot of the identifier, or at the free slot where it belongs |
| `DynamicBindings.Table.Find` | runtime/dynamic.c:309-330 | finds exactly the values bound to the identifier |
| `DynamicBindings.PushValue` | runtime/dynamic.c:128-156 | the buffer doubles when full; without memory the stack is unchanged |
| `DynamicBindings.PopValue` | runtime/dynamic.c:158-184 | the last value goes, and the buffer still has room for the rest whether or not it shrinks |
| `DynamicBindings.BufferSizes` | runtime/dynamic.c:128-184 | buffers begin with 4 places, double when full, and are halved when less than half is used |
| `DynamicBindings.PopUndoesPush` | runtime/dynamic.c:332-393 | a pop takes back the push before it |
| `DynamicCache.Domain.Get` | runtime/dynamic.c:462-490 | returns the innermost binding in the nearest fiber up the parent chain, or null, whether or not the cache has it |
| `DynamicCache.Domain.Walk` | runtime/dynamic.c:471-485 | the slow walk does |
| `DynamicCache.Domain.Push` | runtime/dynamic.c:492-508 | binds in the current fiber and keeps every filled cache entry right; without memory nothing changes |
| `DynamicCache.Domain.Pop` | runtime/dynamic.c:510-525 | unbinds in the current fiber and keeps every filled cache entry right |
| `DynamicCache.Domain.Flush` | runtime/dynamic.c:28-33 | empties the cache |
| `DynamicCache.Domain.Switch` | runtime/dynamic.c:59-62 | running another fiber with a flushed cache keeps the cache right |
| `DynamicCache.Domain.Realloc` | runtime/fiber.c:988-1002 | a larger stack takes over the binding table; nothing is lost, and the cache stays right without a flush |
| `DynamicCache.InnermostPushed` | runtime/dynamic.c:492-525 | the value pushed last is found, and a pop brings back what was bound before |
| `DynamicCache.CacheAfter` | runtime/dynamic.c:35-42 | a change at one identifier in the nearest fiber needs only its own cache entry mended |
| `FiberStackCache.CounterTellsTheTruth` | runtime/fiber.c:1198-1221 | in every run, whatever the limits, `len` is the cached stacks, the reservations in flight, the bias while disabled, and one for a pop in progress; cached and committed stacks never exceed the greatest limit in force |
| `FiberStackCache.PopIsExact` | runtime/fiber.c:308-331 | the owner's exchange takes exactly the top off: no ABA, although addresses are reused |
| `FiberStackCache.FreedOnce` | runtime/fiber.c:1205-1220 | a stack is freed only while it is live and nobody else has it, and every live stack is in exactly one place |
| `FiberStackCache.HandedOutOnce` | runtime/fiber.c:308-331 | a stack taken into use comes from memory or from the cache and was in nobody's use |
| `FiberStackCache.DisabledIsEmpty` | runtime/fiber.c:1134-1179 | when no limit is above `MAX_STACK_CACHE_LIMIT`, while disabled the list is empty and no committed push is outstanding; the assertions of enabling and disabling hold |
| `FiberStackCache.LimitAboveBias` | runtime/fiber.c:1122-1132 | a quiet disabled cache lets a pusher in exactly when its limit exceeds `MAX_STACK_CACHE_LIMIT` |
| `FiberStackCache.PushWhileDisabled` | runtime/fiber.c:1198-1219 | for every limit above `MAX_STACK_CACHE_LIMIT` and every start there is a run that lists a stack in a cache that was never enabled |
| `FiberStackCache.RunTame` | runtime/fiber.c:1123-1179 | in every run without such limits a disabled cache stays empty, with nobody committed |
| `FiberStackCache.ReserveBound` | runtime/fiber.c:1204-1210 | whoever is let in keeps cached and committed stacks within its limit, and is let in while disabled only with a limit above the bias |
| `FiberStackCache.StepExchangeHead` | runtime/fiber.c:1168-1173 | popping keeps the invariant, in allocation and in draining |
| `FiberStackCache.StepExchange` | runtime/fiber.c:1211-1218 | pushing keeps the invariant |
| `FiberStackCache.StepReadLen` | runtime/fiber.c:1159-1166 | reading the counter while draining keeps the invariant |
| `FiberStackCache.Drained` | runtime/fiber.c:1159-1178 | draining ends only when nothing is listed and nothing is reserved |
| `FiberStackCache.RunInv` | runtime/fiber.c:1123-1221 | the invariant holds in every run, whatever the limits |
| `FiberCacheUse.FreedIsCached` | runtime/fiber.c:1201-1218 | below the limit a freed stack becomes the top of the list |
| `FiberCacheUse.FreedIsDropped` | runtime/fiber.c:1203-1207 | at the limit its memory is released and the cache is as before |
| `FiberCacheUse.CachedIsUsed` | runtime/fiber.c:308-321 | allocation hands out the top of the list |
| `FiberCacheUse.FreshOnlyIfEmpty` | runtime/fiber.c:322-331 | and asks for memory exactly when the list is empty |
| `FiberCacheUse.FreedThenUsed` | runtime/fiber.c:1198-1221 | freeing a stack and allocating one hands the same one out again, and leaves cache and books as they were |
| `FiberCacheUse.DrainAll` | runtime/fiber.c:1154-1179 | with no push in flight, draining releases every cached stack and ends with the cache disabled |
| `FiberLocalScan.Scanner.Scan` | runtime/fiber.c:505-592 | across all arenas the pass stops with the fatal error exactly when a live block points back to an unmarked one; otherwise it calls the action as due, and the marks left are those of reached self-pointing blocks |
| `FiberLocalScan.Scanner.ScanFields` | runtime/fiber.c:573-589 | marks all targets of a block and calls the action for its heap pointers, or meets an unmarked block at a lower offset |
| `FiberLocalScan.Scanner.Visit` | runtime/fiber.c:452-503 | calls the action on a pointer into a heap, marks an unmarked local block and tells its arena, and ignores the rest |
| `FiberLocalScan.GetLocalIx` | runtime/fiber.c:435-448 | the arena that contains the address, or -1 when none does |
| `FiberLocalScan.CalledExactlyOnce` | runtime/fiber.c:505-592 | without the fatal error each young or major pointer of a reached block is called for exactly once, and nothing else is |
| `FiberLocalScan.StrictlyUpwards` | runtime/fiber.c:573-587 | when every pointer between local blocks goes to a larger offset there is no fatal error and no mark is left |
| `FiberLocalScan.ReachedIsAlive` | runtime/fiber.c:576-588 | unless a live block points back, what is reached at all is reached upwards |
| `FiberLocalScan.SelfPointerKeepsMark` | runtime/fiber.c:574-588 | a self-pointing block passes the test for forward pointers and stays marked |
| `StructuralCompare.DoCompare` | runtime/compare.c:130-342 | the explicit-stack comparison gives the outcome of the recursive one, unless the first value is nested deeper than the stack may grow; physical equality makes no difference |
| `StructuralCompare.TotalPreorder` | runtime/compare.c:130-342 | total comparison is reflexive, antisymmetric in sign and transitive on values where no forwarding block leads to null; NaN equals itself and comes before other floats |
| `StructuralCompare.AntisymmetricIffClean` | runtime/compare.c:141-201 | it is antisymmetric at a value exactly when no forwarding block in the value leads to null |
| `StructuralCompare.ForwardedNull` | runtime/compare.c:142-173 | null is less than a forwarded null, which equals it the other way round |
| `StructuralCompare.CmpIsOrder` | runtime/compare.c:130-342 | comparison is a lexicographic order on values without forwarding blocks, except that null comes before a forwarded null |
| `StructuralCompare.NormToValue` | runtime/compare.c:142-217 | comparing a value's plain form with it gives equal exactly when it is clean, else less |
| `StructuralCompare.EqualToNorm` | runtime/compare.c:142-217 | a value compares equal to its plain form |
| `StructuralCompare.PartialAgrees` | runtime/compare.c:344-389 | a partial comparison other than unordered has the outcome of the total one |
| `StructuralCompare.FloatPartial` | runtime/compare.c:231-245 | floats are unordered exactly when one is NaN |
| `StructuralCompare.FloatByRank` | runtime/compare.c:231-245 | total comparison of floats orders them by rank, NaNs first |
| `StructuralCompare.OrderFit` | runtime/compare.c:130-342 | the reference order is transitive |
| `StructuralCompare.OrderPair` | runtime/compare.c:130-342 | the reference order is antisymmetric in sign |
| `StructuralCompare.InspectIsCmp` | runtime/compare.c:141-319 | one turn of the loop answers, moves on, looks through a forwarding block or descends, as the recursion does |
| `StructuralCompare.CmpReflexive` | runtime/compare.c:141 | skipping physically equal values in total mode changes nothing |
| `StructuralCompare.NewLimit` | runtime/compare.c:60-83 | the stack grows until it would reach its maximal size |
| `CompareLaws.StringOrder` | runtime/compare.c:218-230 | a string is less than another if and only if it is a proper prefix of it or has the smaller byte where they first differ; equal exactly when the bytes are |
| `CompareLaws.FloatOrder` | runtime/compare.c:231-245 | floats compare as the numbers that their fields denote, infinities and both zeros included; with a NaN they are unordered, or in total mode a NaN equals a NaN and comes before all else |
| `CompareLaws.NaNFields` | runtime/compare.c:231-245 | the NaNs are the floats with the largest exponent field and a fraction |
| `CompareLaws.FloatArrayOrder` | runtime/compare.c:246-264 | float arrays compare by size, then by the first floats that are not equal |
| `CompareLaws.BlockOrder` | runtime/compare.c:297-319 | blocks of one tag compare by size, then by the first fields that are not equal |
| `CompareLaws.KindsInOrder` | runtime/compare.c:141-201 | null, then integers by number, then blocks by tag, then objects by identifier, strings, floats, float arrays |
| `CompareLaws.TagTable` | runtime/compare.c:211-320 | the tags of the runtime |
| `CompareLaws.OperatorsAgree` | runtime/compare.c:344-389 | at most one of `<`, `=` and `>` holds; `<=`, `>=` and `<>` are what they should be; whichever holds `compare` tells; only `<>` holds of unordered values |
| `CompareLaws.OperatorsTurned` | runtime/compare.c:344-389 | on values where no forwarding block leads to null: `compare` changes sign, `<` becomes `>`, `<=` becomes `>=`, `=` stays |
| `CompareLaws.CmpFlips` | runtime/compare.c:130-342 | partial comparison is antisymmetric as well, and unordered both ways |
| `CompareLaws.StackSizes` | runtime/compare.c:60-83 | the stack has room for 8 items, then 32, then twice as many each time up to 524288 |
| `GenericHash.EqualValuesHashAlike` | runtime/hash.c:192-311 | values that compare equal have equal hashes for every count, limit and seed, with forwarding chains of at most 1000 links |
| `GenericHash.LongChainIsIgnored` | runtime/hash.c:243-252 | an integer behind k links compares equal to it, and is mixed in exactly when k is at most 1000 |
| `GenericHash.LongChainsBreakHashing` | runtime/hash.c:243-252 | beyond 1000 links equal values hash differently |
| `GenericHash.HashExn` | runtime/hash.c:192-311 | the loop over the bounded queue computes the specified hash |
| `GenericHash.ExamineOne` | runtime/hash.c:212-305 | the switch of the loop, for a value behind its forwarding links |
| `GenericHash.EnqueueFields` | runtime/hash.c:297-301 | fields go to the end of the queue as long as there is room |
| `GenericHash.Follow` | runtime/hash.c:243-252 | follows at most 1000 links, and gives up behind them |
| `GenericHash.MixArray` | runtime/hash.c:225-233 | mixes the floats of an array until the count is used up |
| `GenericHash.SameDouble` | runtime/hash.c:85-116 | equal floats are mixed in alike: one NaN, one zero |
| `GenericHash.FinishAlike` | runtime/hash.c:209-305 | two walks over pairwise alike queues end with the same hash |
| `HashLaws.MixUndone` | runtime/hash.c:31-40 | mixing can be undone: hash and word each follow from the result and the other |
| `HashLaws.FinalUndone` | runtime/hash.c:42-47 | so can the final mixing; only the folding to 30 bits loses anything |
| `HashLaws.StringsApart` | runtime/hash.c:146-177 | strings of one length that differ within one group of four bytes, the one at the end included, are mixed in differently |
| `HashLaws.IntsApart` | runtime/hash.c:57-78 | different integers of 31 bits are mixed in differently |
| `HashLaws.IntnatIsWord` | runtime/hash.c:62-71 | integers of 32 bits are mixed in as on a 32-bit platform |
| `HashLaws.IntnatFolds` | runtime/hash.c:66 | larger ones by combining the halves, the high one complemented when negative |
| `HashLaws.NullApart` | runtime/hash.c:212-214 | null is mixed in differently from every integer of 31 bits |
| `HashLaws.DoublesApart` | runtime/hash.c:96-124 | floats whose normal forms differ in one half are mixed in differently |
| `HashLaws.NormalFormsTell` | runtime/hash.c:111-121 | normal forms are equal exactly when the floats compare equal |
| `HashLaws.HeadersApart` | runtime/hash.c:293-296 | blocks of a different tag or size are told apart by their headers |
| `HashLaws.EnqueueTakes` | runtime/hash.c:297-301 | fields enter the queue in order, as many as there is room for |
| `HashLaws.QueueBounds` | runtime/hash.c:203-204 | the queue has 256 places, and a smaller limit is respected |
| `HashLaws.ChainIsShallow` | runtime/hash.c:243-252 | a chain of forwarding blocks is within reach exactly up to 1000 links |
| `HashPromises.HashOfList` | runtime/hash.c:192-311 | a list of integers is hashed by its elements in order, as long as the queue has room and elements count |
| `HashPromises.FirstElements` | runtime/hash.c:209 | elements behind the last that counts make no difference |
| `HashPromises.PromisedStrings` | testsuite/tests/lib-hashtbl/hfun.reference:2-3 | the hashes of the test suite, for strings |
| `HashPromises.PromisedInts` | testsuite/tests/lib-hashtbl/hfun.reference:5-9 | for integers |
| `HashPromises.PromisedFloats` | testsuite/tests/lib-hashtbl/hfun.reference:11-17 | for both zeros, both infinities and every NaN |
| `HashPromises.PromisedLists` | testsuite/tests/lib-hashtbl/hfun.reference:25-27 | for lists |
| `BigarrayProxy.ViewsShareProxy` | runtime/bigarray.c:1208-1242 | in every run all live views share the installed proxy, whose count is the number of holders |
| `BigarrayProxy.NotFreedWhileUsed` | runtime/bigarray.c:284-307 | the data is not freed while a view is live or being created, between setting the proxy and counting it included |
| `BigarrayProxy.FreedExactlyOnce` | runtime/bigarray.c:284-307 | the data is freed at most once, and exactly once when all views are dead; then no proxy is left, those of losers of the race included |
| `BigarrayProxy.NoUseAfterFree` | runtime/bigarray.c:1217-1240 | whoever touches a proxy's count finds the proxy allocated |
| `BigarrayProxy.FailureFreesSharedData` | runtime/bigarray.c:1227-1228 | in every reachable state where allocating a proxy may fail, failing lets the data be freed under a live view |
| `BigarrayProxy.StepExchange` | runtime/bigarray.c:1233-1240 | the compare-and-swap keeps the invariant, won or lost |
| `BigarrayProxy.StepFinalize` | runtime/bigarray.c:284-300 | finalising a view keeps the invariant, with and without a proxy |
| `BigarrayProxy.StepCount` | runtime/bigarray.c:1218-1222 | counting a new view keeps the invariant |
| `BigarrayProxy.RunInv` | runtime/bigarray.c:1208-1242 | the invariant holds in every run in which memory for proxies is found |
| `BigarrayProxy.FirstSharing` | runtime/bigarray.c:1227-1236 | the first view of an array gives both a new proxy counted for two |
| `BigarrayProxy.NextSharing` | runtime/bigarray.c:1217-1222 | every further view takes the proxy over and is counted |
| `BigarrayProxy.DyingShared` | runtime/bigarray.c:284-300 | a view that dies lowers the count; the last one frees data and proxy |
| `BigarrayProxy.DyingAlone` | runtime/bigarray.c:284-292 | an array that was never shared is freed with its only view |
| `BigarrayIndex.OffsetIsBijective` | runtime/bigarray.c:676-700 | in both layouts and any number of dimensions, offsets run through 0..num_elts-1, each for exactly one index |
| `BigarrayIndex.Offset` | runtime/bigarray.c:676-700 | the offset, or a bound error exactly when an index is out of range |
| `BigarrayIndex.OffsetRowMajor` | runtime/bigarray.c:682-689 | the loop for the C layout |
| `BigarrayIndex.OffsetColumnMajor` | runtime/bigarray.c:690-697 | the loop for the Fortran layout |
| `BigarrayIndex.Slice` | runtime/bigarray.c:1246-1295 | succeeds exactly when the fixed indices, padded with the smallest ones, are in range |
| `BigarrayIndex.SliceAddresses` | runtime/bigarray.c:1246-1295 | an element of a slice is the element of the array at the completed index |
| `BigarrayIndex.Sub` | runtime/bigarray.c:1330-1376 | for an offset counted from the smallest index of the layout, succeeds exactly when the range lies in the slowest dimension, and gives the view that begins there |
| `BigarrayIndex.SubAddresses` | runtime/bigarray.c:1330-1376 | an element of a sub-array is the element of the array at the shifted index |
| `BigarrayIndex.LayoutTable` | runtime/bigarray.c:1330-1360 | the smallest index and the slowest dimension in each layout |
| `BigarrayIndex.ChangeLayout` | runtime/bigarray.c:1300-1324 | reverses the dimensions when the layout differs, or runs out of memory exactly when the size overflows in the new order |
| `BigarrayIndex.ChangeLayoutFits` | runtime/bigarray.c:1310-1316 | an array that could be allocated can change its layout exactly when the dimensions behind its last zero do not overflow; with positive dimensions, always |
| `BigarrayIndex.EmptyMayNotChangeLayout` | runtime/bigarray.c:236-245 | an array of 0 by 2^40 by 2^40 can be allocated but not turned round |
| `BigarrayIndex.FitsUpToZero` | runtime/bigarray.c:236-245 | the size check looks at no dimension behind the first zero |
| `BigarrayIndex.SubFits` | runtime/bigarray.c:1364-1369 | a sub-array, allocated with the dimensions of the whole array, fits the check as well after its dimension is corrected |
| `BigarrayIndex.SliceFits` | runtime/bigarray.c:1285-1286 | the allocation of a slice never runs into the check |
| `BigarrayIndex.ChangeLayoutAddresses` | runtime/bigarray.c:1300-1324 | every element stays in its place, at the reversed index; changing twice changes nothing |
| `BigarrayIndex.Reshape` | runtime/bigarray.c:1510-1543 | succeeds exactly when the dimensions are not negative and not too many, the exact element counts agree despite the unchecked product, and the size does not overflow; with positive dimensions, whenever the counts agree |
| `BigarrayIndex.ReshapeKeepsOrder` | runtime/bigarray.c:1533-1534 | the same position is the same element |
| `BigarrayIndex.Size` | runtime/bigarray.c:236-245 | the byte size, or out of memory exactly when a multiplication overflows |
| `BigarrayIndex.WrappedAlone` | runtime/bigarray.c:1523-1532 | the unchecked product alone can be wrong |
| `HexDouble.RoundTrip` | runtime/floats.c:201-370 | printing any finite double without a precision and reading the text gives the sign and the same bits back |
| `HexDouble.ReadHex` | runtime/floats.c:286-372 | reads exactly the well-formed texts; unless the bit counters overflow, the bits are those of the double nearest to the number, overflow to infinity and subnormals included, if and only if the second rounding is not misled, and always from the smallest normal double upwards |
| `HexDouble.Twice` | runtime/floats.c:352-369 | in the subnormal range rounding to 53 bits and again by `ldexp` is rounding once exactly when the first rounding did not make a tie that goes the wrong way |
| `HexDouble.NormalOnce` | runtime/floats.c:352-369 | above it the second rounding changes nothing, and overflow is decided alike |
| `HexDouble.SecondRoundingHurts` | runtime/floats.c:368-369 | `4000000000000Bp-1077` is read as a double that is not the nearest |
| `HexDouble.ReadScaled` | runtime/floats.c:311-366 | extreme and saturated exponents give the zero or the infinity that the exact exponent gives |
| `HexDouble.BitsDenote` | runtime/floats.c:216-220 | the reference: the fields of the nearest double denote the nearest multiple of its unit |
| `HexDouble.BitsOfValue` | runtime/floats.c:368-369 | the bits depend only on the value, however it is split into mantissa and exponent |
| `HexFloat.PrintAndRead` | runtime/floats.c:201-370 | what is read from the printed text has the sign and the exact value of the double |
| `HexDouble.ValueTellsBits` | runtime/floats.c:216-220 | finite doubles of one sign with the same value have the same bits |
| `HexFloat.FloatOfHex` | runtime/floats.c:286-372 | reads exactly the well-formed texts; for digit strings of any length, rounding what is kept and scaling it is rounding the exact number to nearest, ties to even |
| `HexFloat.KeptRounds` | runtime/floats.c:333-355 | keeping sixty bits with a sticky low bit does not change the rounding to 53 bits |
| `HexFloat.StickyRounds` | runtime/floats.c:339-346 | the same for any number of kept bits from 55 on |
| `HexFloat.KeptOn` | runtime/floats.c:327-347 | reading one more digit keeps what is kept |
| `HexFloat.RoundedIsNearest` | runtime/floats.c:352-355 | the rounding to 53 bits used as reference is nearest, ties to even |
| `HexFloat.NearestMultiple` | runtime/floats.c:352-355 | so is the rounding to any unit |
| `HexFloat.HexstringOfFloat` | runtime/floats.c:201-284 | prints the leading digit, as many fractional digits as needed, and the exponent |
| `HexFloat.PrintFraction` | runtime/floats.c:266-277 | the loop over the window of fractional digits |
| `HexFloat.MantissaTells` | runtime/floats.c:262-277 | the printed digits denote the mantissa exactly |
| `HexFloat.FloatOfString` | runtime/floats.c:395-403 | takes sign and prefix off and hands the rest to the hexadecimal reader |
| `HexText.DigitTable` | runtime/floats.c:327-332 | the digits are 0 to 9, a to f and A to F, with their values; the printer writes the small ones |
| `HexText.DigitsOnly` | runtime/floats.c:327-332 | no other character is a digit |
| `HexText.CaseDoesNotMatter` | runtime/floats.c:298-330 | texts that differ only in the case of their letters are well-formed alike and denote the same number |
| `HexText.SpaceTable` | runtime/floats.c:306-308 | which characters may stand before the exponent |
| `HexText.DecimalStep` | runtime/floats.c:306-308 | exponents are in base ten |
| `HexText.ExponentForms` | runtime/floats.c:306-308 | they may have a sign |
| `HexText.NoExponent` | runtime/floats.c:305-309 | but must have a digit |
| `HexText.PrintedExponents` | runtime/floats.c:280 | they are printed in base ten, always with a sign |
| `HexText.PrintedNumbers` | runtime/floats.c:201-284 | one, minus a half and zero as they are printed |
| `Blake2.HashChunks` | runtime/blake2.c:123-183 | however the message is cut into update calls, the digest is that of the one-shot definition in section 3.3 of RFC 7693, keyed and empty messages and multiples of the block size included |
| `Blake2.Context.constructor` | runtime/blake2.c:123-140 | the padded key, if there is one, is the first block |
| `Blake2.Context.Update` | runtime/blake2.c:142-168 | appends the data to what was fed, keeping all but the last block compressed |
| `Blake2.Context.Final` | runtime/blake2.c:170-183 | compresses the padded last block with the total length, and returns the first bytes of the chain value |
| `Blake2.Extract` | runtime/blake2.c:180-182 | the loop gives the first bytes of the words, the lowest byte of each first |
| `Blake2.Context.Compress` | runtime/blake2.c:78-121 | counts the bytes, with a carry, before it compresses |
| `Blake2.CounterAdds` | runtime/blake2.c:87-89 | the two words with the carry are the 128-bit length |
| `Blake2.ParameterBlock` | runtime/blake2.c:128-129 | the parameter word is the first of the parameter block of section 2.5 of RFC 7693: digest length, key length, fanout 1, depth 1 |
| `Blake2.OneBlock` | runtime/blake2.c:170-183 | the definition in literals: up to 128 bytes are one padded block, marked as the last |
| `Blake2.TwoBlocks` | runtime/blake2.c:142-183 | 129 to 256 bytes are two, the first with counter 128 |
| `Blake2.KeyedEmpty` | runtime/blake2.c:133-139 | a key without data is the only block |
| `Blake2.KeyedBlock` | runtime/blake2.c:133-183 | with data it is a block before them |
| `Blake2.Context.AbsorbBlocks` | runtime/blake2.c:160-163 | the block loop leaves between one and 128 bytes for the buffer |

## Left out

- Weak memory: every access to shared memory is one sequentially consistent step; the fences at runtime/domain.c:443 and runtime/domain.c:2597 are what makes that fair.
- Stop-the-world: failed domain creation (runtime/domain.c:868-898), forking and domain cancellation; setting the request up is one step, and so are leaving the array and releasing the lock.
- Stop-the-world: the callback is one step, so that it comes to its end is taken for granted; progress is shown for steps that the scheduler may take, without assuming fairness.
- Stop-the-world: the platform's barrier is modelled as released at start and after each use (runtime/caml/platform.h:299-338); spinning and sleeping at it are waiting for it.
- Backup thread: the systhreads hooks for the domain lock are a plain lock; the interrupt hook of senders is left out.
- PositionTable: the bitvector of used slots and the entry array are one sequence of slots; a bit that is not set is an empty slot.
- Marshalling: closures, infix pointers, custom blocks, objects (whose identifiers the reader renews, also in messages from elsewhere) and forwarding blocks (which may be short-circuited) are not in the modelled heaps, whose blocks have the tags up to 244 and 246; mixed blocks, `NO_SHARING`, COMPAT_32, compression and the message header; running out of memory or of stack; big-endian floats.
- Marshalling: `size_32` would only repeat `size_64` with other constants.
- ReachableWords: infix pointers and the first scanned field of closures; a block is given by its size and the fields a walk follows.
- FrameDescriptors: statistics, the decoding of frame tables, out of memory, overflow of the `int` counters, and unregistering at the same time as registering (one holds a mutex, the other stops the world).
- FrameDescriptors.Table.Find: asks for an array, which start-up provides; with none, the code reads through a NULL pointer.
- DynamicBindings: capacities and counts are unbounded; copying a table (runtime/dynamic.c:397-427) and scanning roots are not modelled.
- DynamicCache.Domain.Switch: changes of fiber by the interpreter and the assembly stubs are one operation that flushes; that every one of them flushes is taken from their code (runtime/interp.c:628, 1048, 1357, 1510, 1557, runtime/callback.c:572).
- FiberStackCache.DisabledIsEmpty: asks for limits of at most `MAX_STACK_CACHE_LIMIT`, as runtime/fiber.c:1122 does; beyond that it is false (`FiberStackCache.PushWhileDisabled`).
- FiberStackCache: one size class of one domain; waiting in `cpu_relax` is a step that changes nothing.
- FiberLocalScan.Scanner.Visit: does not overwrite the field when the action moves the block it points to, because no later step of the scan looks at that field again.
- FiberLocalScan: the scan of stack frames that sets the first marks, and the fill patterns of debug builds.
- Comparison: custom blocks, functional and abstract values, mixed blocks, infix pointers, polling for signals, cyclic values, failure to allocate the stack.
- GenericHash.EqualValuesHashAlike: forwarding chains are at most 1000 links long; beyond that it is false (`GenericHash.LongChainsBreakHashing`).
- Hashing: custom blocks, closures, abstract values and continuations; 32-bit floats.
- BigarrayProxy.RunInv: runs in which memory for a proxy is not found are excluded; what they do is in `BigarrayProxy.FailureFreesSharedData`.
- BigarrayIndex.Sub: asks for at least one dimension; with none, the code reads a dimension that is not there.
- Bigarrays: external and mapped data, which are not counted; machine overflow inside `caml_ba_offset`, excluded by the size check at allocation.
- HexFloat.FloatOfHex: gives the kept mantissa and the exponent; what `ldexp` makes of them is in `HexDouble.ReadHex`.
- HexDouble.ReadHex: for texts so long that the bit counters overflow an `int` only the well-formedness is stated.
- HexFloat.HexstringOfFloat: prints finite doubles without a precision; a given precision, the `+` and space styles, infinities and NaNs are left out.
- HexFloat.FloatOfString: decimal notation, which goes to `strtod`, and the removal of underscores are left out.
- Blake2: the compression function is a parameter, so the twelve rounds of mixing are not modelled; keys longer than 64 bytes, where the parameter word has the length before truncation.
- Other parts of the runtime (collector, signals, timers, finalisers, code fragments, integer and array primitives, bytecode interpreter): easier than, or close repeats of, the above.
