# Verified models of VSTa's C library and shell

These Dafny modules model algorithms and state machines of VSTa's C library (`src/lib`) and of its
port of the shell `ash` (`src/bin/ash`), and prove what that code is meant to keep. A file holds one
module; the comment at its head says which source it models. `dafny verify dfyconfig.toml` checks
everything.

**Asynchronous buffer cache** (`AbcModel`, `AbcProtocol`, `AbcBackground`, `AbcForeground`,
`AbcSafety`, `AbcTransparency`, `AbcResults`, `AbcDurable`, with `LinkedList` and `HashTable` for the
structures below it). The foreground and background threads are a step relation: one step is a change
of `b_flags`, a section under a buf's lock, or an access to the ring of operations; a semaphore per
thread models `mutex_thread`. A run is any interleaving of the two threads and any sequence of client
calls of `find_buf`, `index_buf`, `dirty_buf`, `sync_buf`, `sync_bufs`, `lock_buf` and `unlock_buf`. `age_buf()` looks at B_BUSY without taking the buf's lock, so it can meet a buf that the background
has finished with but not yet unlocked: its assertion fails then, or without assertions it frees a buf that
the background still writes to. `FaultsExactly` says that nothing else ever goes wrong, and
`AgingCanFault` gives such a run. Up to that point no wakeup is lost, operations run in the order queued,
and the cache with the disk reads as a plain disk that only the client changes.

**Calendar** (`Calendar`, `TimeSearch`). `timesub()` and the search of `time2()` by halving powers of
two, as inverses. The years follow the header's rule that every fourth year is a leap year. The loop
that moves a day below 1 into an earlier year takes off the year's length also from March on, where it
should be that of the twelve months before: 0 March 1993 becomes 1 March. `BackUpExact` says for which
years, months and days that is so, and `Time2` how far the result is off.

**Sorting** (`Qsort`). Quicksort down to segments below THRESH, then an insertion sort whose inner scan
has no bound of its own; the comparison function is any total preorder.

**Shell evaluator** (`AshSyntax`, `AshEval`, `AshLaws`). A structured semantics in which a command ends
normally, by a break or continue of n levels, or by a return; and the evaluator with its flag
`evalskip` and its counters, which refines it. A return in a loop's test leaves the function, but its
value is lost: the loop's own status replaces it. A function keeps the values of its returns if no test
of a while or until in it holds a return command (`CallDelivers`), and a loop does so exactly when its
test never returns (`LoopKeepsExactly`).

**Resource map** (`Rmap`). Sorted free ranges with gaps. `rmap_grab()` does not notice that a request
wraps around the unsigned range, or is empty. `GrabRight` says for which requests it does what it promises,
and `GrabKeepsOrder` for which the map stays sorted with gaps: an empty request inside an entry leaves two
that touch, and later requests across the two are refused (`GrabEmpty`).

**Random numbers** (`RandomGen`). Each state array yields its own stream, however draws and switches
interleave. The comment on `setstate()` says that switching to the array in use is harmless; in fact
the saved position is read before it is refreshed, so the generator goes back. That does no harm exactly
when the ring repeats with the common divisor of its size and the distance of the two positions, which in
rings of 7 and 31 words means that the positions or all words are equal (`SelfSwitch`, `PrimeRings`).

**Numbers as text** (`StrToLong`, `NumberText`, `NumberRoundTrip`). `strtoul()` and `strtol()` against
section 7.20.1.4 of ISO/IEC 9899:1999, with the exact inputs on which they differ from it; the integer
conversions of `__doprnt()`; and the round trip between them. `%X` of 0 with precision 0 leaves the
upper case digits to later `%x` conversions of the same call (`CaseLeaksExactly`).

**Buffered files** (`Stdio`). One buffer for reading and writing, against a plain file with a cursor. A
relative seek over a dirty buffer goes wrong: `FseekCur` says what then happens to cursor and contents.

**File descriptors** (`BlockIo`, `Descriptors`). Unaligned I/O on a block device; descriptors that share
ports; the image that `exec()` hands over. A read that starts behind the end of the device and inside a
block is reported as complete although nothing was read (`Balign`). Restoring gives every port the position
0, whatever was saved, because `__do_open()` resets it (`PositionSurvives`).

**Shell command cache** (`CommandSearch`, `CommandTable`, `CommandCache`). Remembered commands stay what
a search of PATH finds, across cd and changes of PATH. A `%builtin` that is not the option of its
element is located all the same, and then a stale builtin can be remembered (`UncleanPath`);
`KeepsExactly` says for which two values of PATH that cannot happen.

**Filename matching** (`Fnmatch`, `FnmatchPatterns`, `FnmatchPeriod`). A string matches when it can be cut into one piece for every token of
the pattern; `fnmatch()` decides that. FNM_PERIOD forbids `?` and `*` to start at a leading dot, but only
up to the first star that is tried at every place, and it does not bind bracket expressions (`PeriodLeaks`).
So the promise that only a dot matches a leading dot is kept for every string exactly by the patterns that
have no bracket expression with a dot, and behind that star no wildcard, at their start or, under
FNM_PATHNAME, right after a slash; or that match nothing at all (`PeriodExact`).

**Path names** (`Pieces`, `PathNames`, `DotDot`, `WorkingDirectory`). The in-place normalisation of
`__dotdot()`, and the agreement of libc's and the shell's copies of the current directory.

**Interned strings** (`Symbols`). Open addressing with growth. The hash is negative exactly when an odd
number of bytes above 127 reaches the sign bit.

**Memory allocator** (`MallocArena`, `Malloc`). Power-of-two buckets threaded through memory, and large
blocks, with the assertions of the DEBUG build that `src/lib/makefile` asks for. `malloc()` aborts exactly
above 32752 pages: the tag would not fit, or the page count wraps to 0 and no chunk has the address.

`Arithmetic` holds what several modules need to know about powers of two and remainders.

## Main results

The other rows of the table below are steps towards these, or specify single operations.

- Buffer cache: `AbcSafety.FaultsExactly`, `AbcSafety.NoLostWakeup`, `AbcSafety.RunsInQueueOrder`, `AbcSafety.NeverOverwritesPending`, `AbcSafety.ListsAgree`, `AbcResults.CacheIsTransparent`, `AbcResults.IndexReturns`, `AbcResults.ReadsLastWrite`, `AbcDurable.SyncIsDurable`
- Calendar: `TimeSearch.RoundTrip`, `TimeSearch.RoundTripFields`, `TimeSearch.Time2`, `TimeSearch.BackUpExact`
- Sorting: `Qsort.Qsort`, `Qsort.Qst`
- Shell evaluator: `AshEval.Shell.EvalTree`, `AshLaws.FuelEnough`, `AshLaws.BreakLeavesExactly`, `AshLaws.ContinueFor`, `AshLaws.JumpInBody`, `AshLaws.ReturnDelivers`, `AshLaws.LoopKeepsExactly`
- Resource map: `Rmap.ResourceMap.Alloc`, `Rmap.ResourceMap.Release`, `Rmap.GrabWorks`, `Rmap.GrabRight`, `Rmap.GrabKeepsOrder`
- Random numbers: `RandomGen.DrawsFollowRecurrence`, `RandomGen.Run`, `RandomGen.OwnStream`, `RandomGen.SelfSwitch`
- Numbers as text: `NumberRoundTrip.RoundTripLong`, `NumberRoundTrip.RoundTripUlong`, `NumberText.CaseLeaksExactly`, `StrToLong.ScanDigits`, `StrToLong.UlongStandard`, `StrToLong.LongStandard`
- Buffered files: `Stdio.Run`, `Stdio.OverlayAt`, `Stdio.File.FseekCur`
- File descriptors: `BlockIo.BlockPort.Balign`, `Descriptors.RunsKeepInv`, `Descriptors.MovedIs`, `Descriptors.SharingSurvives`
- Shell command cache: `CommandCache.Shell.FindCommand`, `CommandSearch.FindsFile`, `CommandSearch.FindsBuiltin`, `CommandCache.KeepsExactly`
- Filename matching: `Fnmatch.Fnmatch`, `FnmatchPeriod.PeriodExact`
- Path names: `DotDot.Dotdot`, `PathNames.NormalForm`, `WorkingDirectory.Shell.CdAll`
- Interned strings: `Symbols.SymbolTable.LookupAll`, `Symbols.NegativeExactly`
- Memory allocator: `Malloc.Heap.Malloc`, `Malloc.Heap.Free`, `Malloc.Heap.Realloc`

## Model

| member | source | states |
|---|---|---|
| AbcSafety.FaultsExactly | src/lib/abc.c:313-345 | an assertion fails or a freed buf is touched exactly when age_buf meets a buf that is no longer busy but still locked by the background |
| AbcSafety.AgingCanFault | src/lib/abc.c:326-337 | a run in which it does |
| AbcSafety.NeverFaults | src/lib/abc.c:98-112 | otherwise the checks on busy and want never fail, and what the background works on is in core and busy |
| AbcSafety.RunsInQueueOrder | src/lib/abc.c:555-596 | the background executes the operations that were queued, in that order |
| AbcSafety.NeverOverwritesPending | src/lib/abc.c:267-303 | a ring slot that is filled in belongs to no operation still to be executed |
| AbcSafety.ListsAgree | src/lib/abc.c:352-431 | the age list, the hash table and bufsize describe the same bufs, within coresec |
| AbcSafety.Release | src/lib/abc.c:255-303 | a blocked foreground is released after a bounded number of background steps |
| AbcSafety.NoLostWakeup | src/lib/abc.c:98-112 | whenever the foreground is blocked in any run, the background can step and will release it |
| AbcSafety.ReachableInv | src/lib/abc.c:603-630 | every reachable state keeps the protocol invariant |
| AbcBackground.KeepsInv | src/lib/abc.c:555-596 | every background step keeps the protocol invariant |
| AbcForeground.KeepsInv | src/lib/abc.c:267-345 | every foreground step keeps it, in get, qio, find_buf, index_buf, aging and syncing, unless it ages a buf that is still locked |
| AbcForeground.ClientKeepsInv | src/lib/abc.c:641-720 | every client call of the model keeps it |
| AbcTransparency.BgKeepsData | src/lib/abc.c:223-248 | a fill or flush by the background leaves the contents that the cache shows unchanged |
| AbcTransparency.FgKeepsData | src/lib/abc.c:313-431 | so do the foreground's loads, write-backs and aging |
| AbcTransparency.NextKeepsData | src/lib/abc.c:641-760 | every step keeps the cache a view of the abstract disk |
| AbcResults.CacheIsTransparent | src/lib/abc.c:515-548 | after any run every sector reads as the abstract disk, which only client stores change |
| AbcResults.StepsAreInvisible | src/lib/abc.c:223-248 | a step that is no client store changes no sector that anyone can read |
| AbcResults.IndexReturns | src/lib/abc.c:515-548 | over every run index_buf(b, index, n) returns the sectors from index on of the buf asked for, and moves it to the front of the age list |
| AbcResults.StoresThere | src/lib/abc.c:515-548 | a store behind that pointer changes the sector of the abstract disk that it points to |
| AbcResults.ReadsLastWrite | src/lib/abc.c:515-548 | a read of sectors index to index + n behind that pointer sees the last value written there |
| AbcResults.FindReturns | src/lib/abc.c:352-431 | find_buf of sectors that no buf starts with ends with a new buf of that start and length, and otherwise leaves the hash table alone |
| AbcResults.SyncBufIsDurable | src/lib/abc.c:727-770 | when sync_buf has returned the disk holds every sector of the buf |
| AbcResults.LockedStays | src/lib/abc.c:699-719 | lock_buf and unlock_buf count, and a locked buf does not go away |
| AbcDurable.SyncIsDurable | src/lib/abc.c:727-826 | when sync_bufs is done, the background alone brings the disk to what the cache shows |
| LinkedList.Node.constructor | src/lib/llist.c:12-18 | a new head is a ring of one node |
| LinkedList.Insert | src/lib/llist.c:27-43 | the new node comes before the given one, at the end for the head, and both directions agree |
| LinkedList.Delete | src/lib/llist.c:50-62 | the node leaves the ring and the others keep their order |
| LinkedList.Unlink | src/lib/llist.c:53-56 | the two assignments that take a node out leave a ring |
| LinkedList.LinkFirst | src/lib/llist.c:82-85 | the four assignments that put a node behind the head leave a ring |
| LinkedList.MoveHead | src/lib/llist.c:69-86 | the node moves right behind the head and the others keep their order |
| HashTable.Hash.constructor | src/lib/hash.c:26-45 | a new table has no value for any key |
| HashTable.Hash.Insert | src/lib/hash.c:53-71 | the value hides older ones of its key, other keys keep theirs |
| HashTable.Hash.Delete | src/lib/hash.c:79-107 | the newest value goes and uncovers the one before; 1 exactly when there is none |
| HashTable.Hash.Lookup | src/lib/hash.c:133-148 | the newest value of the key, found exactly when there is one |
| HashTable.Hash.Size | src/lib/hash.c:155-166 | the number of values inserted and not deleted |
| HashTable.FirstOut | src/lib/hash.c:97-105 | unlinking the first node with a key removes that key's newest value only |
| Calendar.TimeSub | src/lib/time.c:1220-1300 | the fields are in range and recombine to the time, day of year and weekday included |
| Calendar.YearOf | src/lib/time.c:1277-1291 | the loops over years find the year and the day in it |
| Calendar.MonthOf | src/lib/time.c:1293-1297 | the loop over months finds the month and the day in it |
| Calendar.CompareIsClockOrder | src/lib/time.c:1335-1347 | tmcomp orders times as the clock does, strictly |
| Calendar.MonthTable | src/lib/time.c:1293-1297 | the day of the year on which each month starts |
| Calendar.Epoch | src/lib/time.c:1277-1291 | time 0 starts 1990, and every fourth year has 29 days in February |
| TimeSearch.NormExact | src/lib/time.c:1320-1329 | normalise conserves the total, and leaves units in range but for negative exact multiples |
| TimeSearch.CarriedExact | src/lib/time.c:1366-1371 | the carries conserve the time that the fields denote |
| TimeSearch.BackUpExact | src/lib/time.c:1372-1376 | for which year, month and day moving a day below 1 into earlier years keeps the date, and by how much it is off otherwise |
| TimeSearch.BackUpWrong | src/lib/time.c:1372-1376 | 0 March 1993 comes out one day late |
| TimeSearch.FixDay | src/lib/time.c:1372-1388 | the loops over years and months leave a day that the month has |
| TimeSearch.MagnitudeBits | src/lib/time.c:1391-1397 | a time_t has 31 magnitude bits |
| TimeSearch.Search | src/lib/time.c:1402-1418 | the halving steps stay in range, and find the unique matching time exactly when there is one |
| TimeSearch.Time2 | src/lib/time.c:1352-1464 | succeeds exactly for convertible fields, and returns the time they denote exactly when the day has not slipped |
| TimeSearch.Time1 | src/lib/time.c:1470-1519 | the same, and WRONG exactly when the fields are not convertible |
| TimeSearch.RoundTrip | src/lib/time.c:1532-1536 | timegm of gmtime of t is t exactly when the minute of t starts in range |
| TimeSearch.RoundTripFields | src/lib/time.c:1208-1215 | gmtime of timegm returns the fields |
| Qsort.Qsort | src/lib/qsort.c:34-92 | the array ends sorted, with the same elements |
| Qsort.Qst | src/lib/qsort.c:110-209 | elements THRESH - 1 or more apart end in order, at a recursion depth of at most log2 of the size |
| Qsort.MedianToMiddle | src/lib/qsort.c:128-146 | the exchanges only rearrange the segment |
| Qsort.Partition | src/lib/qsort.c:150-186 | the discriminator ends between what is at most and what is at least as large |
| Qsort.Divide | src/lib/qsort.c:127-186 | one turn of the loop leaves both parts on their side of the discriminator |
| Qsort.LeastIsEarly | src/lib/qsort.c:53-63 | after qst a least element is among the first THRESH |
| Qsort.PlaceSentinel | src/lib/qsort.c:53-71 | the first element becomes a least one |
| Qsort.ScanDown | src/lib/qsort.c:80-82 | the unbounded scan stops above the sentinel, at the place of the element |
| Qsort.InsertOne | src/lib/qsort.c:79-91 | the sorted part grows by one element and keeps the sentinel |
| Qsort.InsertionSort | src/lib/qsort.c:72-92 | sorts what qst has left |
| AshEval.Shell.EvalTree | src/bin/ash/eval.c:192-277 | the flag, the counters, the trace and the status show what the structured semantics says, and no command starts while a skip is pending |
| AshEval.Shell.EvalIf | src/bin/ash/eval.c:231-246 | the same for if, whose test may end by a skip |
| AshEval.Shell.EvalLoop | src/bin/ash/eval.c:281-313 | the same for while and until |
| AshEval.Shell.EndOfSkip | src/bin/ash/eval.c:290-297 | a skip ends at the loop it is meant for, and otherwise goes on with one level less |
| AshEval.Shell.EvalFor | src/bin/ash/eval.c:318-353 | the same for the for loop |
| AshEval.Shell.EvalCase | src/bin/ash/eval.c:358-381 | the same for case |
| AshEval.Shell.EvalSimple | src/bin/ash/eval.c:731-745 | a return ends at the function it is in, while break and continue pass through it to the loops around the call |
| AshEval.Shell.BreakCmd | src/bin/ash/eval.c:880-893 | a pending skip count lies between 1 and the number of loops |
| AshEval.Shell.ReturnCmd | src/bin/ash/eval.c:900-911 | return is pending exactly inside a function |
| AshSyntax.Exec | src/bin/ash/eval.c:192-277 | a jump never leaves more loops than there are |
| AshLaws.FuelEnough | src/bin/ash/eval.c:192-277 | the depth bound of the semantics does not influence its result |
| AshLaws.BreakLeavesExactly | src/bin/ash/eval.c:281-313 | break n leaves exactly n loops |
| AshLaws.ContinueLeaves | src/bin/ash/eval.c:289-297 | continue k inside fewer than k loops ends those and is left for the next one out |
| AshLaws.ContinueFor | src/bin/ash/eval.c:318-353 | continue n + 1 inside n loops inside a for loop: every word still has its turn |
| AshLaws.JumpInBody | src/bin/ash/eval.c:281-313 | after continue a while or until loop starts its next turn, break ends it, and jumps of more levels go on outside |
| AshLaws.ContinueInTest | src/bin/ash/eval.c:289-293 | continue in the test of a loop starts the next turn |
| AshLaws.TestEnds | src/bin/ash/eval.c:299-305 | while ends when its test fails and until when it succeeds, with the status of the last run of the body |
| AshLaws.Branches | src/bin/ash/eval.c:201-246 | which command runs after another, by its status: in a sequence, an and list, an or list and an if |
| AshLaws.FirstClause | src/bin/ash/eval.c:358-381 | case runs the first clause with a matching pattern, or nothing |
| AshLaws.JumpCommands | src/bin/ash/eval.c:880-911 | how many levels break and continue take, and what return does outside a function |
| AshLaws.DefinedIsCalled | src/bin/ash/eval.c:731-745 | a function that was defined runs its body |
| AshLaws.ReturnDelivers | src/bin/ash/eval.c:192-381 | a pending return has its value as status unless a loop left from its test has put its own in place, which no loop does if no test holds a return command |
| AshLaws.ReturnInTestIsLost | src/bin/ash/eval.c:285-313 | any loop whose test returns ends at once, with status 0 and the return pending |
| AshLaws.TurnLosesReturn | src/bin/ash/eval.c:285-313 | in a later turn it ends with the status of the last run of its body |
| AshLaws.LoopKeepsExactly | src/bin/ash/eval.c:281-313 | a loop passes on the value of every return exactly when its test never returns |
| AshLaws.UnreachedReturn | src/bin/ash/eval.c:201-206 | a function whose loop test holds a return that is never reached, and so loses no value |
| AshLaws.CallDelivers | src/bin/ash/eval.c:731-745 | exactly when a call ends with the value of the return that ended it |
| Rmap.ResourceMap.constructor | src/lib/rmap.c:25-34 | an empty map with all slots but the header |
| Rmap.ResourceMap.Collapse | src/lib/rmap.c:40-50 | an entry disappears and the others keep their order |
| Rmap.ResourceMap.Alloc | src/lib/rmap.c:57-89 | takes the lowest run that fits, 0 exactly when none does; only those units go |
| Rmap.FirstFit | src/lib/rmap.c:67-76 | the first entry that is large enough starts the lowest free run of that size |
| Rmap.ResourceMap.MakeSpace | src/lib/rmap.c:97-122 | opens a slot in place, unless none is left |
| Rmap.ResourceMap.Release | src/lib/rmap.c:132-196 | the units join the map, or are counted as lost when no slot is left and they touch nothing |
| Rmap.MergeAdds | src/lib/rmap.c:149-180 | joining with the neighbours keeps the map sorted with gaps and adds exactly those units |
| Rmap.ResourceMap.TryGrab | src/lib/rmap.c:205-308 | the map and lost_elems become what Grab says, for all unsigned arguments, and the map stays valid exactly for requests that keep the order |
| Rmap.GrabWorks | src/lib/rmap.c:205-308 | a request that does not wrap succeeds exactly when it is all free, and then units and losses add up |
| Rmap.GrabExact | src/lib/rmap.c:205-308 | a request is granted exactly if all of it is free, exactly when it is empty and starts in an entry, or does not wrap, or starts in no entry |
| Rmap.GrabKeepsOrder | src/lib/rmap.c:205-308 | for which requests the map stays sorted with gaps: an empty or wrapping one must not split an entry, and the end of one that wraps must lie above the entry before |
| Rmap.GrabRight | src/lib/rmap.c:205-308 | exactly when a request is granted just if all of it is free, and then takes out that and what is counted as lost |
| Rmap.GrabEmpty | src/lib/rmap.c:276-301 | an empty request that leaves two touching entries, and a free range that is refused afterwards |
| Rmap.GrabWraps | src/lib/rmap.c:235-238 | a wrapping request that is granted, and leaves the map out of order |
| RandomGen.Generator.Random | src/lib/random.c:320-339 | the next number of the stream of the array in use |
| RandomGen.Generator.SetState | src/lib/random.c:269-302 | resumes what the new array saved, and saves the old one; on the array in use nothing changes exactly when its ring allows the step back |
| RandomGen.Generator.InitState | src/lib/random.c:212-254 | the largest type that fits is seeded, with position 0 in word 0, and the old array is saved |
| RandomGen.Generator.Srandom | src/lib/random.c:174-193 | the seeded generator, with the rear pointer back at the start |
| RandomGen.DrawsFollowRecurrence | src/lib/random.c:326-338 | every number is the sum of those deg and sep before it, modulo the word, without its lowest bit |
| RandomGen.Trinomials | src/lib/random.c:326-338 | the recurrences of the four additive types |
| RandomGen.SeededDraws | src/lib/random.c:174-193 | what a seed makes the generator draw |
| RandomGen.FillFollows | src/lib/random.c:181-185 | the ring is filled with one word after the other of the linear congruence |
| RandomGen.TrivialDraws | src/lib/random.c:322-325 | the trivial type draws the linear congruence modulo 2^31 |
| RandomGen.KindFits | src/lib/random.c:222-246 | initstate takes the largest type that has room in n bytes |
| RandomGen.RingAdvance | src/lib/random.c:327-336 | storing at the front pointer and moving on drops the oldest word |
| RandomGen.PointersStep | src/lib/random.c:329-336 | the pointers stay sep apart and never wrap in one call |
| RandomGen.SaveKeepsGen | src/lib/random.c:276-299 | packing type and position into word 0 loses nothing |
| RandomGen.Run | src/lib/random.c:269-339 | a program on shared state draws what it would from separate generators |
| RandomGen.OwnStream | src/lib/random.c:269-339 | each array yields its own stream without a gap |
| RandomGen.SelfSwitch | src/lib/random.c:269-302 | the saved position gives the current generator exactly when the ring repeats with the common divisor of its size and the distance |
| RandomGen.PrimeRings | src/lib/random.c:269-302 | in rings of 7 and 31 words another position gives the same generator exactly when all words are equal |
| RandomGen.SelfSwitchRepeats | src/lib/random.c:264-265 | an array on which it goes back |
| StrToLong.StrToUl | src/lib/strtol.c:68-157 | value, rest and range error of strtoul |
| StrToLong.StrToL | src/lib/strtol.c:164-201 | value, rest and range error of strtol |
| StrToLong.ScanDigits | src/lib/strtol.c:121-145 | the sticky overflow flag is set exactly when the exact value exceeds ULONG_MAX |
| StrToLong.ScanIs | src/lib/strtol.c:121-145 | all digits that follow are read and nothing else, and are worth what they stand for in the radix |
| StrToLong.DigitIs | src/lib/strtol.c:122-137 | digits and letters of both cases, as far as the radix goes |
| StrToLong.TrimIs | src/lib/strtol.c:86-88 | white space is skipped as far as it goes |
| StrToLong.BaseZero | src/lib/strtol.c:97-116 | base 0 means 16 after 0x, 8 after another 0, and 10 otherwise |
| StrToLong.NegatedIs | src/lib/strtol.c:156-156 | after a minus the result is the negative in 32 bits |
| StrToLong.OverflowTest | src/lib/strtol.c:140-142 | the test with quotient and remainder tells exactly whether the next total fits |
| StrToLong.UlongStandard | src/lib/strtol.c:68-157 | strtoul does what the standard asks exactly when no bare 0x stands there |
| StrToLong.LongStandard | src/lib/strtol.c:164-201 | strtol does what the standard asks exactly when neither a bare 0x stands there, nor a second white space or sign with a number behind |
| StrToLong.ReadsNumber | src/lib/strtol.c:94-157 | strtoul reads something exactly when a digit of the base follows, and not a bare 0x |
| StrToLong.TwoSigns | src/lib/strtol.c:179-192 | "-+5" is read as -5 |
| NumberText.PutDigits | src/lib/doprnt.c:345-350 | the digits of the number, at the end of the buffer, which is large enough |
| NumberText.Emit | src/lib/doprnt.c:358-467 | padding, sign, prefix and zeros around the digits, and the count of characters |
| NumberText.Print | src/lib/doprnt.c:193-201 | the text of one conversion, LONG_MIN included |
| NumberText.Doprnt | src/lib/doprnt.c:70-101 | the text of a whole format, and its length as the result |
| NumberText.LayoutLength | src/lib/doprnt.c:377-384 | the text is as long as the field or, if that is larger, what is in it |
| NumberText.PaddingStands | src/lib/doprnt.c:387-460 | where blanks, sign, prefix, zeros and digits stand, and how many, for the flags - and 0, the width and the precision |
| NumberText.SignAndPrefix | src/lib/doprnt.c:193-201 | the sign for negative numbers and the flags + and blank, and the prefix for # |
| NumberText.DigitsCased | src/lib/doprnt.c:312-355 | the digits of %x are lower case and those of %X upper case |
| NumberText.LeadingDigit | src/lib/doprnt.c:336-356 | no leading zeros, but one for # with %o, and no digits only for 0 with precision 0 |
| NumberText.CaseLeaksExactly | src/lib/doprnt.c:312-355 | exactly when every conversion prints what it would alone |
| NumberText.UpperCaseLeaks | src/lib/doprnt.c:346-351 | a format that prints a lower case conversion in upper case |
| NumberRoundTrip.RoundTripLong | src/lib/strtol.c:164-201 | strtol reads back what %ld printed, under all flags, widths and precisions |
| NumberRoundTrip.RoundTripUlong | src/lib/strtol.c:68-157 | strtoul in the matching base reads back the bits that were printed |
| NumberRoundTrip.DigitsWorth | src/lib/doprnt.c:347-350 | the digits printed are worth the number |
| Stdio.File.FillBuf | src/lib/stdio.c:100-147 | the buffer takes up what follows the cursor; fails exactly at the end |
| Stdio.File.FlushBuf | src/lib/stdio.c:156-202 | what the file logically holds is on the device, and the cursor stays |
| Stdio.File.SetRead | src/lib/stdio.c:260-305 | changing over to reading keeps contents and cursor |
| Stdio.File.SetWrite | src/lib/stdio.c:314-357 | changing over to writing keeps contents and cursor |
| Stdio.File.Fgetc | src/lib/stdio.c:363-380 | the byte at the cursor, or EOF exactly at the end or when reading is not allowed |
| Stdio.File.Fputc | src/lib/stdio.c:386-429 | the byte is written at the cursor, and goes out at once when the file is unbuffered, or buffered by lines and the byte ends one |
| Stdio.File.Fflush | src/lib/stdio.c:664-679 | the device holds the logical contents |
| Stdio.File.Ftell | src/lib/stdio.c:924-946 | the cursor |
| Stdio.File.Ungetc | src/lib/stdio.c:888-914 | the byte is next to be read exactly when the buffer still holds the one before the cursor, never after end of file; the buffer stays a view of the file exactly if it is that byte |
| Stdio.File.Fseek | src/lib/stdio.c:953-998 | the cursor goes to the place asked for; where a seek that fails leaves it |
| Stdio.File.FseekCur | src/lib/stdio.c:953-998 | a relative seek is right exactly on a clean buffer that reaches back far enough, or by 0; and where cursor and contents end otherwise |
| Stdio.SeekDrops | src/lib/stdio.c:964-967 | seeking forwards in a dirty buffer drops the bytes put there last |
| Stdio.OverlayAt | src/lib/stdio.c:156-202 | what is written replaces the bytes that were there, byte by byte, and a gap behind the end reads as zeros |
| Stdio.OverlayTwice | src/lib/stdio.c:407-410 | buffered writes add up to one write |
| Stdio.ReadsBytes | src/lib/stdio.c:363-380 | reading n times gives the n bytes from the cursor on |
| Stdio.WritesBytes | src/lib/stdio.c:386-429 | writing byte after byte is one write of them all at the cursor |
| Stdio.UngetReadsAgain | src/lib/stdio.c:888-914 | a byte that is pushed back is read again |
| Stdio.Run | src/lib/stdio.c:363-998 | any sequence of operations gives the results of a plain file |
| BlockIo.MaskRoundsDown | src/lib/fdl.c:182-184 | for powers of two the mask rounds down to a multiple |
| BlockIo.BlockPort.ReadBlock | src/lib/fdl.c:187-220 | one more block of the request is delivered, but for a request behind the end and inside a block, which counts as done |
| BlockIo.BlockPort.WriteBlock | src/lib/fdl.c:221-285 | one more block is changed, and only where the request covers it |
| BlockIo.BlockPort.Balign | src/lib/fdl.c:154-305 | the block loop moves p_pos by what it returns, and has read or written exactly those bytes exactly when it starts at most at the end of the device or at a block boundary |
| BlockIo.ChangedIs | src/lib/fdl.c:154-305 | what a write leaves is the old bytes around the new ones |
| Descriptors.Layer.AllocFd | src/lib/fdl.c:524-556 | the lowest free one of the first NFD, else one that is free |
| Descriptors.Layer.FdAlloc | src/lib/fdl.c:565-591 | a new descriptor on a new port with one reference |
| Descriptors.Layer.Dup | src/lib/fdl.c:597-623 | a new descriptor on the same port, or -1 exactly when there is none |
| Descriptors.Layer.Dup2 | src/lib/fdl.c:629-668 | the target is closed and shares the port; 0 even for equal descriptors that are not open |
| Descriptors.Layer.Close | src/lib/fdl.c:742-779 | the descriptor goes, and the port with its last one |
| Descriptors.ClosedInv | src/lib/fdl.c:760-776 | the close handler runs exactly when the last descriptor goes |
| Descriptors.ClosedIs | src/lib/fdl.c:742-779 | close takes the one descriptor out, and its port exactly if it was the last on it |
| Descriptors.MovedIs | src/lib/fdl.c:629-668 | after dup2 the target is on the port of the other descriptor, and its old port is closed exactly if it was the last on that |
| Descriptors.RunsKeepInv | src/lib/fdl.c:500-779 | over every run references count descriptors, none maps to a freed port, none is closed twice |
| Descriptors.Layer.FdlSize | src/lib/fdl.c:907-924 | 4 bytes and 12 for every descriptor |
| Descriptors.Layer.FdlSave | src/lib/fdl.c:874-900 | one entry for every descriptor, with its connection and position |
| Descriptors.Layer.FdlRestore | src/lib/fdl.c:788-848 | all descriptors again, one port at position 0 for each connection, and the whole image consumed |
| Descriptors.SharingSurvives | src/lib/fdl.c:788-900 | sharing is restored exactly when no two ports had the same connection |
| Descriptors.PositionSurvives | src/lib/fdl.c:815-845 | a position survives exactly when it was 0 |
| Descriptors.CountsSurvive | src/lib/fdl.c:830-840 | with equal sharing the reference counts are equal |
| CommandCache.Shell.FindCommand | src/bin/ash/exec.c:399-521 | returns what a search without the table returns, and remembers just that |
| CommandCache.Shell.SearchPath | src/bin/ash/exec.c:442-507 | the search that skips absolute elements finds what a full search finds |
| CommandCache.Shell.Cd | src/bin/ash/exec.c:547-558 | what is remembered stays right in the new directory; exactly the entries that may depend on it are marked |
| CommandCache.Shell.ChangePath | src/bin/ash/exec.c:569-605 | which entries go; those that stay are right under the new PATH whenever the builtins stay |
| CommandCache.Compare | src/bin/ash/exec.c:577-598 | firstchange is the number of elements in common, bltin the first mention of %builtin |
| CommandCache.Padvance | src/bin/ash/exec.c:279-311 | the next element and its option |
| CommandCache.KeptOk | src/bin/ash/exec.c:599-604 | then an entry that clearcmdentry leaves is right under the new PATH |
| CommandCache.KeepsExactly | src/bin/ash/exec.c:569-605 | for two values of PATH, all that is kept is right in every world exactly when the elements part behind the %builtin that counts or it stays behind the same directories |
| CommandSearch.LocatedStays | src/bin/ash/exec.c:592-602 | in particular when changepath locates the %builtin that counts |
| CommandCache.MarkedOk | src/bin/ash/exec.c:547-558 | an entry that hashcd marked can be rehashed from where it was found |
| CommandCache.RememberedIsRight | src/bin/ash/exec.c:419-421 | an unmarked entry is what a search finds |
| CommandCache.UncleanPath | src/bin/ash/exec.c:592-593 | two values of PATH for which a builtin that was rightly remembered stays remembered although a search finds a file |
| CommandSearch.FindsFile | src/bin/ash/exec.c:416-507 | a file is found exactly at the first directory that has it, relative ones seen from the current directory, when no builtin comes before |
| CommandSearch.FindsBuiltin | src/bin/ash/exec.c:422-456 | exactly when a builtin is found |
| CommandSearch.ElementIs | src/bin/ash/exec.c:279-311 | a percent sign ends the directory of an element and starts its option |
| CommandSearch.MentionsIs | src/bin/ash/exec.c:592-593 | %builtin is located wherever it stands in an element |
| CommandSearch.SearchFinds | src/bin/ash/exec.c:445-507 | the search ends at the first hit, for a builtin at the first element with that option |
| CommandTable.Table.Lookup | src/bin/ash/exec.c:684-715 | finds the entry exactly when there is one |
| CommandTable.Table.Put | src/bin/ash/exec.c:703-714 | the table maps the name to the entry, other names as before |
| CommandTable.Table.Delete | src/bin/ash/exec.c:723-731 | the name is gone, other names as before |
| CommandTable.Table.Mark | src/bin/ash/exec.c:547-558 | marks exactly the normal commands, and the builtins when %builtin is in PATH |
| CommandTable.Table.Clear | src/bin/ash/exec.c:614-633 | removes exactly the entries from the first change on |
| Fnmatch.Fnmatch | src/lib/fnmatch.c:61-166 | 0 exactly when the string can be cut into pieces that match the tokens, and with FNM_PERIOD no `?` or `*` up to the first general star starts at a leading dot |
| Fnmatch.PeriodMatch | src/lib/fnmatch.c:79-101 | FNM_PERIOD only takes matches away, and none without a leading dot |
| Fnmatch.PlainMatch | src/lib/fnmatch.c:61-166 | without FNM_PERIOD the relation is the plain one |
| Fnmatch.RangeMatch | src/lib/fnmatch.c:169-211 | whether the character is in the bracket expression, and where that ends; NULL when it is malformed |
| Fnmatch.TrySuffixes | src/lib/fnmatch.c:122-132 | never trying the empty suffix loses no match |
| Fnmatch.AtStarStar | src/lib/fnmatch.c:88-93 | collapsing stars changes no match, with or without FNM_PERIOD |
| Fnmatch.AtStarEnd | src/lib/fnmatch.c:95-111 | a final star matches what has no slash or leading dot that it must not match |
| Fnmatch.AtStarSlash | src/lib/fnmatch.c:95-117 | a star before a slash goes to the first slash |
| Fnmatch.AtStarGeneral | src/lib/fnmatch.c:95-132 | any other star takes any front piece, and drops FNM_PERIOD for what follows |
| Fnmatch.AtOne | src/lib/fnmatch.c:71-160 | every other token takes one character, and of these only `?` respects FNM_PERIOD |
| FnmatchPatterns.PlainChar | src/lib/fnmatch.c:155-160 | a character that means nothing else matches itself |
| FnmatchPatterns.Escaped | src/lib/fnmatch.c:144-160 | without FNM_NOESCAPE a character after a backslash matches itself |
| FnmatchPatterns.Unescaped | src/lib/fnmatch.c:144-160 | with it, or at the end of the pattern, a backslash matches itself |
| FnmatchPatterns.Question | src/lib/fnmatch.c:71-85 | a question mark matches a character, but no slash or leading dot that is protected |
| FnmatchPatterns.Bracket | src/lib/fnmatch.c:133-145 | a bracket expression matches a character that one of its items takes |
| FnmatchPatterns.NegatedBracket | src/lib/fnmatch.c:180-182 | after ! or ^ one that none of them takes |
| FnmatchPatterns.SingleItem | src/lib/fnmatch.c:204-206 | a character is an item that takes itself |
| FnmatchPatterns.EscapedItem | src/lib/fnmatch.c:185-187 | without FNM_NOESCAPE a backslash in brackets makes the next character an item |
| FnmatchPatterns.RangeItem | src/lib/fnmatch.c:192-203 | two characters with a minus between take what lies between them |
| Fnmatch.PeriodLeaks | src/lib/fnmatch.c:122-145 | under FNM_PERIOD [.] matches a leading dot, and *x/?y matches ax/.y, while x/?y does not match x/.y |
| FnmatchPeriod.PeriodExact | src/lib/fnmatch.c:61-166 | for which patterns only a dot matches a leading dot under FNM_PERIOD, in every string: no bracket expression that takes a dot, and no wildcard from the first general star on, at the start or after a slash |
| FnmatchPeriod.StrictMatches | src/lib/fnmatch.c:61-166 | whatever that promise allows to match is matched |
| FnmatchPeriod.MatchIsStrict | src/lib/fnmatch.c:79-101 | what is matched is what the promise allows, for patterns without such tokens |
| FnmatchPeriod.Breaks | src/lib/fnmatch.c:122-160 | for every other pattern that matches anything, a string that is matched against the promise |
| FnmatchPeriod.SamePlace | src/lib/fnmatch.c:71-160 | a token after a slash stands at the same place of the string however it is cut |
| FnmatchPeriod.DeadExactly | src/lib/fnmatch.c:169-211 | only a bracket expression without a character it may take matches nothing |
| PathNames.NormalForm | src/lib/open.c:46-55 | the normal form is absolute, has no empty, "." or ".." element, and is its own normal form |
| PathNames.Steps | src/lib/open.c:78-115 | a name leads one level down, ".." one up as far as the root, and "." and nothing lead nowhere |
| DotDot.Dotdot | src/lib/open.c:57-156 | the buffer ends up with the normal form of the path |
| DotDot.Cut | src/lib/open.c:65-73 | the slashes become NULs and the elements are noted |
| DotDot.Squash | src/lib/open.c:78-115 | the vector ends up as the stack that the elements leave |
| DotDot.PutElement | src/lib/open.c:140-147 | an element moves down, and the write cursor stays below what is unread |
| DotDot.PutSlashes | src/lib/open.c:120-126 | a path in which nothing was found is restored |
| WorkingDirectory.Shell.Chdir | src/lib/open.c:658-685 | __cwd is where the directory leads |
| WorkingDirectory.Shell.UpdatePwd | src/bin/ash/cd.c:271-305 | curdir is where the directory leads |
| WorkingDirectory.GetComponent | src/bin/ash/cd.c:242-258 | the components are the pieces between slashes |
| WorkingDirectory.PopTo | src/bin/ash/cd.c:291-292 | popping characters takes the last name off |
| WorkingDirectory.Shell.CdAll | src/bin/ash/cd.c:115-135 | after every sequence of cd commands both copies name the same directory |
| WorkingDirectory.Leads | src/bin/ash/cd.c:271-305 | an absolute path leads from the root, another from where one is, name by name |
| Symbols.HashVal | src/lib/symbol.c:59-71 | the hash as it is kept in an int |
| Symbols.NegativeExactly | src/lib/symbol.c:59-71 | the hash is negative exactly when an odd number of high bytes meets the sign bit |
| Symbols.SevenBit | src/lib/symbol.c:80-83 | the hash of a 7-bit string is not negative |
| Symbols.StartsInside | src/lib/symbol.c:118-123 | a probe starts inside the table exactly for a hash that is not negative or a multiple of its size |
| Symbols.SymbolTable.Search | src/lib/symbol.c:123-147 | the probe loop finds the string or a free slot that its search reaches, or the table is full |
| Symbols.SymbolTable.FindFree | src/lib/symbol.c:83-105 | while a slot is free the probe loop finds one, so abort is not reached |
| Symbols.SymbolTable.Grow | src/lib/symbol.c:153-185 | a larger table with the same strings and pointers, and room |
| Symbols.SymbolTable.Lookup | src/lib/symbol.c:113-191 | the string's only pointer, new exactly when the string is, whenever the probes start inside the table |
| Symbols.SymbolTable.LookupAll | src/lib/symbol.c:113-191 | over every sequence of lookups pointers are equal exactly when strings are |
| Symbols.NotThere | src/lib/symbol.c:124-132 | a search that meets a free slot has shown that the string is not in the table |
| Symbols.SomeFree | src/lib/symbol.c:180-182 | a table larger than the number of strings has a free slot |
| Malloc.Heap.Malloc | src/lib/malloc.c:350-459 | aborts exactly above 32752 pages; otherwise a block that was not live, at least as large as asked for, and live blocks keep their bytes |
| Malloc.Heap.Free | src/lib/malloc.c:466-503 | the block is no longer live; the others keep their bytes |
| Malloc.Heap.Realloc | src/lib/malloc.c:513-571 | aborts for the same sizes; otherwise a block of the new size with the first bytes of the old one, and the others keep theirs |
| Malloc.Heap.AllocCore | src/lib/malloc.c:209-237 | a new chunk that no block and no pool touches |
| Malloc.Heap.AllocPages | src/lib/malloc.c:244-285 | pages that no block touches, apart from the rest of the pool |
| Malloc.Heap.FreeCore | src/lib/malloc.c:180-202 | the chunk of a large block goes, and no other block with it |
| Malloc.Heap.GetSize | src/lib/malloc.c:335-343 | the tag recorded for the block, for every block that malloc() has returned or carved |
| Malloc.Heap.SetSize | src/lib/malloc.c:312-328 | aborts exactly for a tag from 32768 on or for no pages; otherwise records the tag and disturbs no other block's |
| Malloc.Heap.CarvePages | src/lib/malloc.c:429-440 | the pages become free blocks of the bucket |
| Malloc.BucketFor | src/lib/malloc.c:387-410 | the smallest bucket that is large enough |
| Malloc.Heap.FindChunk | src/lib/malloc.c:292-305 | a chunk with the address, or an abort exactly when there is none |
| Malloc.Heap.Store | src/lib/malloc.c:287-305 | a program that writes to its own blocks disturbs no free list |
| Malloc.LargeFits | src/lib/malloc.c:373-378 | the page count in 32 bits can be tagged exactly up to 32752 pages |
| MallocArena.ChunkFound | src/lib/malloc.c:292-305 | the chunk that contains an address is the one that describes its block |
| MallocArena.HeadersApart | src/lib/malloc.c:224-235 | no block touches a header page |
| MallocArena.PageTagged | src/lib/malloc.c:320-327 | tagging an unused page keeps all blocks described |
| MallocArena.LargeRemoved | src/lib/malloc.c:184-201 | removing the chunk of a large block keeps the layout |

## Left out

- AbcResults.CacheIsTransparent: for clients that keep extents apart, call `dirty_buf` for every changed buf before a call that may age or sync bufs, ask for ABC_BG only with ABC_FILL, and call `dirty_buf` after getting a buf without ABC_FILL, as `src/srv/dos/rw.c` does. A pointer that `index_buf` returned is followed until the next call that takes a buf.
- AbcSafety.FaultsExactly: the assertions in `get`, `qio`, `exec_qio`, `_sync_buf`, `age_buf`, `index_buf` and `find_buf`; those on `malloc`, on null pointers and on an overflow of `b_locks` are not part of the model.
- AbcDurable.SyncIsDurable: for `sync_bufs(0)`; handles are not modelled.
- TimeSearch.Time2: only the zone state of GMT; zones, daylight saving and leap seconds are not modelled, a month that would index past the month table is excluded, and fields so large that the carries overflow an int behave as unbounded ones.
- TimeSearch.RoundTrip: false for the few times whose minute starts before the time_t range.
- AshEval.Shell.EvalTree: commands that finish within a bound on the depth; `FuelEnough` says that the bound does not matter.
- Rmap.GrabWorks: requests that wrap or are empty are excluded here and described by `GrabRight` and `GrabKeepsOrder`.
- Rmap.ResourceMap.Release: the range is not empty, does not start at 0 and was not free, as the source demands of its callers.
- RandomGen.Run: programs do not switch to the array in use; `SelfSwitch` says when that would matter.
- StrToLong.StrToUl: base 0 or 2 to 36, and not a null pointer.
- NumberText.Doprnt: formats come as a sequence of characters and conversions; reading the flags, the other conversions, `h`, and the size of the output buffer are not modelled.
- Stdio.Run: `ungetc` only of the byte before the cursor and no relative seeks; `Ungetc` and `FseekCur` say what others do. Devices that neither fail nor take less than they are given, no append mode, and not the `getc` and `putc` macros.
- BlockIo.BlockPort.Balign: writes stay on the device.
- Descriptors.Layer.Dup2: no negative descriptors.
- Descriptors.Layer.Close: not the value of the close handler.
- Descriptors.PositionSurvives: not for ports of type "null", which `__do_open()` leaves with the saved position and which never look at it.
- CommandCache.Shell.ChangePath: no %func directories.
- CommandCache.Shell.FindCommand: no shell functions in the table, and a file system that does not change.
- Fnmatch.Fnmatch: characters compare by their code, not as signed chars.
- DotDot.Dotdot: memory for the vector of elements does not run out.
- WorkingDirectory.Shell.Chdir: MAXPATH is not part of this model.
- Symbols.SymbolTable.Lookup: the probe for the string starts inside the table, and for a table that has to grow, all probes start inside the larger one; `StartsInside` says when. Otherwise the source reads outside the table.
- Malloc.Heap.Malloc: `mmap` succeeds and gives any addresses not in use; clearing the page table of a chunk of more than 1020 pages, which runs on into its own fresh pages, is left out.
- `resize_buf`: growing a buf calls `age_buf` with more in core than is allowed, so that its last assertion can fail when every buf is locked; no statement about client calls covers it.
- `inval_buf`, I/O errors and running out of memory in the buffer cache: they discard data by design.
- `find_buf`: that its loop that makes room ends, and which buf it ages first: the order is modelled, but no statement is about it.
- Floating point, `%n` and strings in `doprnt.c`; `setvbuf` and the list of open files in `stdio.c`.
- Pipes, subshells, redirection, traps, `-e`, `eval` and `.` in `eval.c`.
- Port messages, terminals and memory-backed descriptors in `fdl.c`.
- `hash_foreach` and `hash_dealloc`; leak tracing and the statistics of `malloc.c`.
