# Verified model of the queues, key driver and image tools

This project models four pieces of the repository and proves properties of them with Dafny 4.11. `dafny
verify dfyconfig.toml` checks everything.

**Queues** (`include/queue.h`): `Sequences`, `Chains`, `TailQueue`, `TailQueueRuns`, `TailQueueLaws`,
`SimpleList`. Heads and elements are objects; `stqh_last` and `varp` are slots, either the head's own
link or the `next` of an element. Each head has a ghost sequence, and each macro is a method that changes
the links in the order of the source. `TailQueueRuns` runs any number of queues over a shared pool of
elements, and `TailQueueLaws` ties the operations to positions, to order and to one another.

**Key driver** (`app/driver/key.c`): `KeyModel` is a transition system in which the handler and the
callbacks take one statement at a time and pins and time change between any two of them. `KeySingle`,
`KeyWords` and `KeyHistory` treat one key, `KeyProjection` lifts the results to any number of keys,
`KeyEvents` states them in positions of the history, `KeySettle` says where a key comes to rest when its
pin no longer changes, `KeyLostEdges` has runs in which an edge is lost, `KeyLong` says when `long_press`
is called, `KeyAtomic` takes handler and callbacks as single steps, and `KeyDriver` has the functions on
objects, proved to be uninterrupted runs of the statements. Assumptions: keys use different pins; a
status bit latches only on an edge that matches the pin's current interrupt type; the handler is not
re-entered and no callback advances while it runs; callbacks run one after another; timers are one-shot
and not early; the installed functions do not touch the driver's state. Runs start in the state that
`key_init` leaves. A press is recorded at line 150, where its 5 s timer is armed.

**Firmware images** (`tools/gen_appbin.py`): `Bytes`, `Crc32`, `AppBin` (the script as a class over an
appended file), `AppBinImage` (the image in closed form), `AppBinReader` (a reader that rejects empty
segments, wrong checksums and wrong trailers, and the round trip), `AppBinLayout` (where each byte of an
image stands). The file starts empty because the Makefile moves the old one away (Makefile:258 and
Makefile:283). CRC-32 follows section 8 of RFC 1952.

**Certificate streams** (`tools/make_cert.py`, `tools/make_cacert.py`): `Certs`; both scripts write the
same format.

Results that differ from what one might expect of the code, each with its exact condition and an input:

- STAILQ_CONCAT of a non-empty queue with itself loses its elements (`ConcatKeepsElements`; `Concat` gives
  the ring that results).
- A key may come to rest at a level that contradicts its pin. `Settles` and `DriverSettles` give the exact
  condition on the state, in the middle of any statements; `ReleaseNoticed` gives it for handlers and
  callbacks that are not interrupted. Lost are: a press between lines 113 and 116 (`PressLost`), a release
  between lines 113 and 122 or between lines 139 and 152 (`ReleaseLost`), and a key that goes down and up
  again before the handler runs (`GlitchSticks`). `LostInDriver` has a run from the state after `key_init`
  for each of the first three, `GlitchSticks` for the last.
- An empty section makes the segment count in the header wrong (`HeaderCountIsBlocks`) and the image
  unreadable (`RoundTrip`; inputs in `EmptyDataIsLost` and `EmptyIromIsLost`); an empty irom section also
  breaks the row alignment of mode 2 (`Mode2ContainsMode0`).
- A checked part over 0x10000 bytes displaces irom in mode 1 (`RoundTrip`; `LongTextDisplacesIrom`).
- The trailer maps two CRCs to one value (`TrailerPreimages`, `TrailerCollisions`; `TrailersCollide`).
- A certificate body of 65536 bytes or more is cut in its length field (`StreamRoundTrip`;
  `LongBodyIsLost`).

## Model

| member | source | states |
|---|---|---|
| Chains.LinkedDistinct | include/queue.h:104-202 | a chain that ends at NULL visits no element twice, so every loop over a queue terminates |
| Chains.ChainUnique | include/queue.h:112-119 | the heap determines the sequence of elements that a queue represents |
| Chains.Predecessor | include/queue.h:164-167 | removing the successor of the element whose `next` is `e` removes exactly `e` |
| TailQueue.LastIsTheOnlyNull | include/queue.h:87-91 | `stqh_last` designates the link that holds the terminating NULL, the head's own one if and only if the queue is empty; every other link is non-NULL |
| TailQueue.TailQ.constructor | include/queue.h:93-94 | an initialised head is a valid empty queue |
| TailQueue.TailQ.Init | include/queue.h:127-130 | the head is a valid empty queue again |
| TailQueue.TailQ.Last | include/queue.h:150-154 | NULL for an empty queue, the last element otherwise |
| TailQueue.TailQ.InsertHead | include/queue.h:138-142 | the sequence gains the element at its front and the queue stays valid, also when it was empty |
| TailQueue.TailQ.InsertTail | include/queue.h:144-148 | the sequence gains the element at its end, through whichever link `stqh_last` designates |
| TailQueue.TailQ.InsertAfter | include/queue.h:132-136 | the element stands right after the given one; `stqh_last` moves when that was the last |
| TailQueue.TailQ.InsertChainHead | include/queue.h:197-202 | a linked chain of free elements is put before the old sequence |
| TailQueue.TailQ.RemoveHead | include/queue.h:172-176 | the sequence loses its first element; the emptied queue has its own link as last |
| TailQueue.TailQ.RemoveAfter | include/queue.h:178-182 | the sequence loses the element after the given one, which becomes last if there is none left |
| TailQueue.TailQ.Remove | include/queue.h:158-170 | the walk ends, and the sequence loses exactly the given member, first, middle, last or only |
| TailQueue.TailQ.Foreach | include/queue.h:116-119 | every element is visited once, in order |
| TailQueue.TailQ.RemoveIf | include/queue.h:122-125 | removing the current element inside FOREACH_SAFE visits every original element once in order and leaves the order-preserving filter |
| TailQueue.Concat | include/queue.h:104-110 | different queues: the first holds both sequences, the second is empty; one queue with itself: the head is empty and the elements form a ring |
| TailQueue.Swap | include/queue.h:184-195 | the sequences are exchanged, with both heads valid also when one of them is empty or both heads are the same |
| TailQueueRuns.ApplySeparate | include/queue.h:104-202 | every legal operation keeps the sequences of different queues disjoint and inside the pool of elements |
| TailQueueRuns.World.Do | include/queue.h:104-202 | with any number of queues, one legal operation changes the abstract sequences as specified and leaves every queue valid and apart from the others |
| TailQueueRuns.World.Run | include/queue.h:104-202 | after every finite run of legal operations all queues are valid, disjoint and hold what the sequence operations say |
| TailQueueRuns.RemoveUndoesInsert | include/queue.h:132-170 | STAILQ_REMOVE undoes each of the three single insertions, wherever they put the element |
| TailQueueRuns.ConcatKeepsElements | include/queue.h:104-110 | STAILQ_CONCAT keeps the set of held elements if and only if the queues differ or are empty |
| TailQueueRuns.SwapTwice | include/queue.h:184-195 | STAILQ_SWAP twice is the identity, and a swap of a queue with itself changes nothing |
| TailQueueRuns.RunAppend | include/queue.h:104-202 | a run is legal and has its effect if and only if its two parts are and have |
| TailQueueLaws.OthersUnchanged | include/queue.h:104-202 | an operation changes no queue that it does not name |
| TailQueueLaws.HeadLaws | include/queue.h:138-176 | STAILQ_REMOVE_HEAD undoes STAILQ_INSERT_HEAD, and moves every other element one position forward |
| TailQueueLaws.TailLaws | include/queue.h:144-148 | STAILQ_INSERT_TAIL puts the element last, and the others keep their positions |
| TailQueueLaws.AfterLaws | include/queue.h:132-136 | STAILQ_INSERT_AFTER puts the element at the next position, STAILQ_REMOVE_AFTER undoes it, and after the last element it is STAILQ_INSERT_TAIL |
| TailQueueLaws.NextLaws | include/queue.h:178-182 | STAILQ_REMOVE_AFTER takes exactly the next element, as STAILQ_REMOVE of that element does, and STAILQ_INSERT_AFTER undoes it |
| TailQueueLaws.RemoveLaws | include/queue.h:158-170 | STAILQ_REMOVE closes the gap at the element's position; at the front it is STAILQ_REMOVE_HEAD |
| TailQueueLaws.InitLaws | include/queue.h:127-130 | after STAILQ_INIT the queue is empty and its former elements are free |
| TailQueueLaws.ChainLaws | include/queue.h:197-202 | STAILQ_INSERT_CHAIN_HEAD is STAILQ_INSERT_HEAD of the chain's elements, the last one first |
| TailQueueLaws.RemoveIfLaws | include/queue.h:122-170 | the safe removing loop keeps exactly the elements that do not satisfy the predicate, each two of them in their order; for one element it is STAILQ_REMOVE |
| TailQueueLaws.ConcatLaws | include/queue.h:104-110 | STAILQ_CONCAT moves the elements of the second queue one by one from its head to the tail of the first; with itself it is STAILQ_INIT |
| TailQueueLaws.SwapLaws | include/queue.h:184-195 | STAILQ_SWAP gives each queue what the other one held, in either order of the arguments; with an empty first queue it is STAILQ_CONCAT |
| TailQueueLaws.RunOfOne | include/queue.h:104-202 | a run of one operation is that operation |
| TailQueueLaws.QueuesDistinct | include/queue.h:104-202 | in every valid heap no queue holds an element twice, so the laws apply |
| SimpleList.List.constructor | include/queue.h:15-16 | an initialised SLIST head is a valid empty list |
| SimpleList.List.Init | include/queue.h:45-47 | the head is a valid empty list again |
| SimpleList.List.InsertAfter | include/queue.h:49-52 | the element stands right after the given one |
| SimpleList.List.InsertHead | include/queue.h:54-57 | the list gains the element at its front |
| SimpleList.List.RemoveAfter | include/queue.h:75-78 | the list loses the element after the given one |
| SimpleList.List.RemoveHead | include/queue.h:80-82 | the list loses its first element |
| SimpleList.List.Remove | include/queue.h:61-73 | the list loses exactly the given member: the same sequence function as STAILQ_REMOVE |
| SimpleList.List.UnlinkFirst | include/queue.h:40-43 | unlinking through the address that SLIST_FOREACH_PREVPTR supplies removes exactly the first match, which no other match precedes, with no special case for the head |
| Sequences.WithoutFirstIsWithout | include/queue.h:40-73 | unlinking the first element equal to a member and SLIST_REMOVE of that member compute the same list |
| Sequences.DroppingMembers | include/queue.h:122-125 | the filtered sequence holds exactly the elements that do not satisfy the predicate |
| KeyModel.StatusBitStep | app/driver/key.c:132-144 | a latched status bit is cleared only by a handler whose snapshot contains it |
| KeyModel.LateBitSurvives | app/driver/key.c:132-161 | a bit latched after the snapshot survives that handler and everything up to the next handler entry |
| KeySingle.ControlStep | app/driver/key.c:88-161 | each statement, edge, tick and timer start keeps the control invariant of a key: which level, interrupt type, status and timers go with which statement |
| KeySingle.ControlRun | app/driver/key.c:88-161 | the control invariant holds after every run of a key |
| KeyHistory.MutualExclusion | app/driver/key.c:107-161 | the handler and `key_50ms_cb` are never both at statements for one key |
| KeyHistory.LockedStep | app/driver/key.c:107-161 | with the interrupt disabled, the status bit is clear and only line 115 changes the level |
| KeyHistory.LockHolds | app/driver/key.c:107-161 | GPIO_PIN_INTR_DISABLE locks the key from the end of the handler branch until line 116 or 122, in every run |
| KeyHistory.HistoryStep | app/driver/key.c:88-161 | each step keeps the invariant that ties the order and the times of a key's events to its state |
| KeyHistory.UnservedRun | app/driver/key.c:107-161 | with nothing latched and nothing to do for the key, no press and no release happens until its pin changes |
| KeySettle.Settles | app/driver/key.c:88-161 | from any state that satisfies the control invariant, in the middle of any statements, every run without a change of the pin that ends at rest leaves the key at level 1 if and only if `SettlesUp` holds of that state |
| KeySettle.EachKeySettles | app/driver/key.c:88-161 | the same for each key of every reachable state of the driver with any number of keys, whatever the other pins do |
| KeySettle.AllComeToRest | app/driver/key.c:88-161 | from every state that satisfies the control invariant some run without a change of a pin brings all keys to rest |
| KeySettle.DriverSettles | app/driver/key.c:88-161 | every reachable state has a run to rest, after which each key's level is the one that `SettlesUp` says |
| KeySettle.PressLost | app/driver/key.c:113-116 | a press between lines 113 and 116: until the pin changes again, after line 116 the key counts as released with the pin low, and nothing is left to serve |
| KeySettle.ReleaseLost | app/driver/key.c:113-152 | a release between lines 113 and 122, or between lines 139 and 152 of the handler that serves its press: until the pin changes again, after that line the key counts as held with the pin high, and nothing is left to serve |
| KeyLostEdges.RunRealised | app/driver/key.c:132-161 | the converse of `RunProjects` for one key: every legal run of the single key is what that key sees of a run of a driver with that key |
| KeyLostEdges.PressLoses | app/driver/key.c:113-116 | a concrete run after `key_init` that ends at rest and released with the pin low |
| KeyLostEdges.ReleaseLoses | app/driver/key.c:113-122 | a concrete run after `key_init` that ends at rest and held with the pin high: the release falls before line 122 |
| KeyLostEdges.GlitchLoses | app/driver/key.c:139-152 | a concrete run after `key_init` that ends at rest and held with the pin high: the release falls before line 141 |
| KeyLostEdges.LostInDriver | app/driver/key.c:52-161 | for any one key, each of the three runs happens in the driver and starts in the state that `key_init` leaves |
| KeyWords.PhaseIsWord | app/driver/key.c:88-161 | the automaton used in the invariant accepts exactly the prefixes of (Press LongCall? Release)* |
| KeyWords.DebtIsWord | app/driver/key.c:113-121 | the automaton for owed calls accepts exactly the prefixes of (Release ShortCall)* |
| KeyWords.LogSpaced | app/driver/key.c:88-157 | a well-timed history in the right order has releases 50 ms and long calls 5000 ms apart |
| KeyWords.WindowBound | app/driver/key.c:88-157 | n events that are `gap` apart fit into a window of t ms only if (n - 1) * gap <= t |
| KeyProjection.StepProjects | app/driver/key.c:132-161 | a step of the whole driver is, for each key, one step of that key alone or none |
| KeyProjection.RunProjects | app/driver/key.c:132-161 | the projection of every legal run with any number of keys is a legal run of the single key |
| KeyProjection.EventOrder | app/driver/key.c:88-161 | in every run each key's events form a prefix of (Press LongCall? Release)*; with short_press installed, each release is followed by exactly one call before the next one and has had it when no callback runs; functions that are not installed are never called |
| KeyProjection.EventRates | app/driver/key.c:88-157 | in every run a long call comes 5000 ms after its press and a release 50 ms after its press at the earliest, so windows of T ms hold at most T/5000 + 1 and T/50 + 1 of them; an armed 5 s timer is due exactly 5000 ms after the press |
| KeyEvents.EventsInPlace | app/driver/key.c:88-161 | in every run a press comes first or after a release, a long call after a press, a release after a press or long call; a long call is 5000 ms and a release 50 ms after the last press or later; with short_press installed, releases and calls alternate |
| KeyEvents.EventGaps | app/driver/key.c:88-157 | in every run any two releases of a key are 50 ms apart and any two long calls 5000 ms |
| KeyEvents.PhaseIsLast | app/driver/key.c:88-161 | the automaton's state tells which event was the last one |
| KeyLong.CalledExactly | app/driver/key.c:88-99 | with the 5 s timer running and the pin constant, once the timer has stopped and no callback runs, long_press has been called for the press if and only if it is installed, the pin is low and the key was not about to be let go at line 114 |
| KeyLong.EachKeyCalls | app/driver/key.c:88-161 | the same for each key of every reachable state of the driver, whatever the other pins do |
| KeyLong.LongOnTime | app/driver/key.c:88-99 | when nothing runs, an armed 5 s timer leads to the call at its due time or, if that is past, now |
| KeyLong.LongPressRecords | app/driver/key.c:88-161 | a concrete run after `key_init`: pressed at 0 and held, the key has its long call at 5000 |
| KeyLong.ShortPressRecords | app/driver/key.c:107-161 | a concrete run after `key_init`: pressed at 0 and let go, the key has its release and its short call at 50 |
| KeyLong.RecordedInDriver | app/driver/key.c:52-161 | both runs happen in a driver with any one key |
| KeyProjection.OneSide | app/driver/key.c:107-161 | in every reachable state at most one side works on a key |
| KeyProjection.GuardedStep | app/driver/key.c:107-161 | one step of the driver keeps a guarded key guarded unless it is line 116 or 122, and changes its level only at line 115 |
| KeyProjection.GuardHolds | app/driver/key.c:107-161 | in every run of the driver a guarded key stays guarded until line 116 or 122 is reached for it |
| KeyAtomic.ReachableModes | app/driver/key.c:61-161 | with atomic handler and callbacks the reachable states are exactly the three modes, and the 5 s timer is armed only at level 0 |
| KeyAtomic.NoTrap | app/driver/key.c:88-161 | from every reachable state a served low level and then a served stable high level lead to rest, with nothing left to serve |
| KeyAtomic.AlwaysReturns | app/driver/key.c:88-161 | the same for every order of serving: whatever handler runs and checks follow the low level and then the high level, once nothing is left to serve the key is back at rest |
| KeyAtomic.ReleaseNoticed | app/driver/key.c:107-161 | with the pin high for good, serving everything ends at level 1 if and only if the check is pending or the status bit is set exactly when the level is 0 |
| KeyAtomic.ServiceEnds | app/driver/key.c:107-161 | one handler run and at most one check leave nothing to serve |
| KeyAtomic.GlitchSticks | app/driver/key.c:146-152 | a concrete input: a key that goes down and up before the handler runs counts as pressed from then on |
| KeyAtomic.PinIsAtomic | app/driver/key.c:72-76 | a change of the pin latches exactly a falling edge under NEGEDGE and a rising edge under POSEDGE, in both models |
| KeyAtomic.IsrIsAtomic | app/driver/key.c:132-161 | the statements of the handler, run without interruption, are the atomic handler step |
| KeyAtomic.CheckIsAtomic | app/driver/key.c:107-124 | the statements of `key_50ms_cb`, run without interruption, are the atomic check |
| KeyAtomic.LongIsAtomic | app/driver/key.c:88-99 | the statements of `key_5s_cb`, run without interruption, are the atomic step |
| KeyDriver.HandlerIsParallel | app/driver/key.c:138-160 | the handler's loop over any number of keys does to each key what the handler would do to that key alone |
| KeyDriver.CallbackIsAlone | app/driver/key.c:88-124 | a callback does to its own key what it would do to that key alone, and nothing to the others |
| KeyDriver.RestingModes | app/driver/key.c:61-161 | in the statement-by-statement runs, every key is in one of the three modes whenever no handler and no callback runs |
| KeyDriver.HandlesKey | app/driver/key.c:139-159 | running the statements for one key has the effect described in one expression |
| KeyDriver.Driver.KeyInit | app/driver/key.c:52-80 | every key starts at level 1 with NEGEDGE, no latched bit and no armed timer |
| KeyDriver.Driver.ServeKey | app/driver/key.c:141-158 | the branch for one key changes the registers and the key as the statements of the transition system do |
| KeyDriver.Driver.KeyIntrHandler | app/driver/key.c:132-161 | the loop over all keys is the uninterrupted run of the handler statements from its entry |
| KeyDriver.Driver.Key50msCb | app/driver/key.c:107-124 | the callback is the uninterrupted run of its statements |
| KeyDriver.Driver.Key5sCb | app/driver/key.c:88-99 | the callback is the uninterrupted run of its statements |
| AppBin.AlignedIsNext | tools/gen_appbin.py:71-74 | the length written is the next multiple of 4, or of 16 for irom |
| AppBin.Byte3Fields | tools/gen_appbin.py:211-213 | size map and clock divider can be read from the third header byte if and only if both have four bits |
| AppBin.Byte3Bits | tools/gen_appbin.py:212 | for all values, negative ones included, a bit of the third header byte is set if and only if it is set in the shifted size map or in the clock divider |
| AppBin.FoldIsXor | tools/gen_appbin.py:80-82 | the checksum is an exclusive or: linear in its start value, and the byte itself for one byte from zero |
| AppBin.FoldCommutes | tools/gen_appbin.py:80-82 | the order of the payload does not matter, and a payload that occurs twice cancels |
| AppBin.Builder.WriteFile | tools/gen_appbin.py:43-55 | the file is extended by the data |
| AppBin.Builder.XorInto | tools/gen_appbin.py:80-82 | the loop folds the data into the checksum |
| AppBin.Builder.WritePadding | tools/gen_appbin.py:84-91 | the zero padding extends the file and leaves the checksum as it is |
| AppBin.Builder.CombineBin | tools/gen_appbin.py:57-95 | the file gains one padded segment or nothing, checksum and block count follow, and a number over 32 bits stops the script |
| AppBin.Builder.WriteHead | tools/gen_appbin.py:217-228 | an eight-byte header, or a stop when the entry address has more than 32 bits |
| AppBin.Builder.WriteIromPart | tools/gen_appbin.py:214-222 | mode 2 starts with the irom header and segment, other modes with nothing |
| AppBin.Builder.WriteFlashPart | tools/gen_appbin.py:223-238 | the flash header and the three checked segments |
| AppBin.Builder.WriteChecksumRow | tools/gen_appbin.py:240-247 | zero bytes to the end of a row, then the checksum |
| AppBin.Builder.WriteIromFile | tools/gen_appbin.py:249-259 | bytes FF up to 0x10000 if any are missing, then the irom section |
| AppBin.Builder.WriteTrailer | tools/gen_appbin.py:263-271 | the four bytes of the folded CRC of everything before |
| AppBin.Builder.GenAppbin | tools/gen_appbin.py:211-271 | on a new file the whole script is the composition of these parts, up to the first stop |
| AppBinImage.RunWritesImage | tools/gen_appbin.py:211-271 | the script ends if and only if all packed numbers fit in 32 bits; then the file is the closed-form image, the checksum is 0xEF XOR all payload bytes, and `blocks` counts the non-empty sections |
| AppBinImage.StoppedFile | tools/gen_appbin.py:214-238 | a script that stops leaves nothing if the entry address does not fit, the first header if the irom segment does not, else everything before the first section that does not |
| AppBinImage.PrefixSize | tools/gen_appbin.py:214-222 | the mode 2 prefix is a multiple of 16 bytes if and only if the irom section is not empty |
| AppBinImage.ChecksumEndsRow | tools/gen_appbin.py:240-247 | in every mode the fill is 15 - size mod 16, one of 3, 7, 11, 15, and the checksum is the last byte of a 16-byte row |
| AppBinImage.Mode2ContainsMode0 | tools/gen_appbin.py:214-247 | a mode 2 file is its prefix, the mode 0 file and the trailer if and only if the irom section is not empty |
| AppBinImage.ChecksumSeesByte | tools/gen_appbin.py:80-82 | two payloads that differ in one byte have different checksums |
| AppBinImage.TrailerPreimages | tools/gen_appbin.py:264-271 | the folded CRC v lies in 0 to 2^31, its four bytes decode to v, and it comes from exactly the CRCs v - 1 and 2^32 - 1 - v in their ranges |
| AppBinImage.TrailerBytes | tools/gen_appbin.py:264-271 | the trailer of a file, lowest byte first, is the folded CRC of that file |
| AppBinImage.TrailerCollisions | tools/gen_appbin.py:264-271 | two files have the same trailer if and only if their CRCs are equal or add up to 2^32 - 2 |
| AppBinImage.TrailersCollide | tools/gen_appbin.py:264-271 | a concrete input: four bytes with CRC 0xFFFFFFFE have the same trailer as the empty content with CRC 0 |
| AppBinReader.ReadAllSegments | tools/gen_appbin.py:57-95 | reading n segments gives back the padded non-empty sections if n is their number, and fails if n is larger and no segment follows |
| AppBinReader.FillIsNoSegment | tools/gen_appbin.py:240-253 | the zero fill, the checksum and the FF fill are never mistaken for a segment |
| AppBinReader.PaddedChecksum | tools/gen_appbin.py:80-91 | a reader that sums over padded segments finds the checksum of the payload |
| AppBinReader.RoundTrip | tools/gen_appbin.py:57-271 | in every mode reading the image returns entry, header bytes, addresses, padded sections and irom if and only if no section is empty (irom in mode 2) and, in mode 1, the checked part is at most 0x10000 bytes |
| AppBinReader.RoundTripMode1 | tools/gen_appbin.py:223-271 | mode 1 returns the exact irom bytes under that condition |
| AppBinReader.RoundTripMode2 | tools/gen_appbin.py:214-271 | mode 2 returns irom padded to 16 bytes, and an image that is not recoverable is rejected |
| AppBinReader.RoundTripMode0 | tools/gen_appbin.py:225-247 | every other mode string: an image that is not recoverable is rejected |
| AppBinReader.ImageDeterminesContents | tools/gen_appbin.py:211-271 | equal recoverable images have equal padded contents |
| AppBinLayout.SectionsStand | tools/gen_appbin.py:57-95 | every non-empty text, data and rodata section stands in the file at the offset that the sizes determine, behind its address and padded size, with zero bytes up to the next multiple of 4 |
| AppBinLayout.IromStands | tools/gen_appbin.py:214-222 | in mode 2 the irom section stands at offset 16, with zero bytes up to the next multiple of 16 |
| AppBinLayout.IromAtOffset | tools/gen_appbin.py:249-259 | in mode 1 irom stands at 0x10000 behind bytes FF, or directly behind the checked part if that is longer |
| AppBinLayout.HeadersStand | tools/gen_appbin.py:211-228 | the magic numbers, counts, parameter bytes and entry address of each mode's headers, at their offsets |
| AppBinLayout.TrailerStands | tools/gen_appbin.py:263-271 | in modes 1 and 2 the last four bytes are the folded CRC of all bytes before |
| AppBinLayout.ImageDeterminesSections | tools/gen_appbin.py:57-271 | equal images of one mode with equal section sizes come from equal sections and addresses |
| AppBinLayout.ImageDeterminesHeader | tools/gen_appbin.py:211-228 | equal images of one mode with equal irom sizes come from the same entry address and parameter bytes |
| AppBinLayout.ChecksumOfOne | tools/gen_appbin.py:38-82 | a concrete input: the checked payload 1 has the checksum 0xEE |
| AppBinLayout.SampleImage | tools/gen_appbin.py:211-247 | a concrete input: all 48 bytes of a mode 0 image |
| AppBinReader.HeaderCountIsBlocks | tools/gen_appbin.py:217-226 | the constant segment count equals the number of segments written if and only if no section is empty |
| AppBinReader.EmptyDataIsLost | tools/gen_appbin.py:70-92 | a concrete input: with an empty data section the image is not read back |
| AppBinReader.EmptyIromIsLost | tools/gen_appbin.py:214-222 | a concrete input: with an empty irom section the mode 2 image is not read back and does not contain the mode 0 file |
| AppBinReader.LongTextDisplacesIrom | tools/gen_appbin.py:249-259 | a concrete input: a text section of 0x10000 bytes moves irom in mode 1 |
| AppBinReader.CheckedPartLength | tools/gen_appbin.py:223-247 | the length of the checked part, given in the lengths of the three sections |
| Crc32.GetFileCRC | tools/gen_appbin.py:98-111 | for every block size of at least 1 the loop returns the signed CRC-32 of the whole content |
| Crc32.CrcAppend | tools/gen_appbin.py:104-106 | the CRC of a concatenation is the CRC of the second part continued from that of the first |
| Crc32.StepIsShift8 | tools/gen_appbin.py:105 | the table-driven step equals eight steps of the division by the CRC polynomial |
| Crc32.BurstDetected | tools/gen_appbin.py:98-111 | two contents that differ only within four consecutive bytes have equal CRCs if and only if they are equal |
| Bytes.UnpackPack | tools/gen_appbin.py:75 | every 32-bit number survives packing, and its four bytes are its digits to base 256, lowest first |
| Certs.Str | tools/make_cert.py:11-19 | the record is the name in 32 bytes, a 16-bit length and the body; a longer name raises |
| Certs.RecordBytes | tools/make_cert.py:11-19 | bytes 0 to 31 are the name and then NUL, the next two the length modulo 65536, the rest the body; there is no record if and only if the name is longer than 32 |
| Certs.StreamConcatenates | tools/make_cert.py:47-49 | the stream of two lists is that of the first, followed by that of the second unless the first one raised |
| Certs.WriteCerts | tools/make_cert.py:47-49 | the file is the concatenation of the records up to the first one that raises |
| Certs.StreamRuns | tools/make_cert.py:47-49 | all records are written if and only if every name fits in 32 bytes |
| Certs.ReadFirst | tools/make_cert.py:11-19 | a record in front of any bytes is read back, with exactly those bytes left, if its name has no NUL and its body is shorter than 65536 bytes; otherwise something else or nothing is read |
| Certs.StreamRoundTrip | tools/make_cacert.py:35-37 | reading a stream returns the list of records if and only if every name is free of NUL and every body shorter than 65536 bytes |
| Certs.StreamInjective | tools/make_cacert.py:11-19 | different lists of such records give different streams |
| Certs.LongBodyIsLost | tools/make_cert.py:16-17 | a concrete input: a body of 65536 bytes is not read back |

## Left out

- Declarations for binary libraries (`include/json`, `include/espconn.h`, `include/mesh.h` and others): no code decides a property.
- ROM functions (`ets_timer_*`, `gpio_*`): only as register updates and timer steps under the assumptions above.
- The output-disable call and the pin-mux writes of `key_init`, and the global interrupt switch around its loop.
- Effects of the installed `long_press` and `short_press` functions; the model records that they are called.
- The integer widths of `key_num` and of the status register: the numbers of keys and pins are unbounded here.
- Payload fields and several list entries in one queue element: an element has one `next` field.
- SLIST_FOREACH and SLIST_FOREACH_SAFE, which are the STAILQ loops over the same chains.
- Symbol-file lookup, argument parsing and number conversion, prints and missing section files in `gen_appbin.py`: addresses and parameters are numbers, section files are byte sequences; an empty `data_start_addr` string, which would skip the data segment at line 234, cannot be expressed.
- The error branch of `getFileCRC` (lines 108-110): reading a file does not fail here.
- Directory listing and file selection in `make_cert.py` and `make_cacert.py`.
- Makefile, linker scripts and `tools/makefile.sh`: configuration.
- The caller's linking of a chain before STAILQ_INSERT_CHAIN_HEAD is written out by `LinkChain`; the header leaves it to the caller.
- What the installed functions and the boot loader do with an image or a certificate file.
