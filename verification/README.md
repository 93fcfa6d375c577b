# A verified model of memleax

memleax attaches to a running process, patches trap instructions over the entries of `malloc`, `free`,
`realloc` and `calloc`, pairs every call with its return, and keeps a ledger of live blocks; blocks that live
too long are reported as leaks. This project models its core in Dafny and proves what the program relies on.
`dafny verify dfyconfig.toml` checks all of it.

| part | files |
|---|---|
| target text, breakpoint protocol, event loop | `TargetText`, `Protocol`, `ProtocolRuns`, `Observations`, `Monitor` |
| intrusive lists and hash tables | `Rings`, `HashTables` |
| block ledger as values, and its laws over whole sessions | `LedgerModel`, `LedgerLaws`, `ExpiryLaws`, `TrackedMap`, `LedgerRuns`, `LedgerHistory` |
| block ledger on the heap | `Ledger`, `LedgerShape` |
| callstack records, final report, whole sessions on the heap | `Callstacks`, `FinalReport`, `Sessions`, `SessionHistory` |
| from traps to the ledger | `EndToEnd`, `RegistersToLedger` |
| unwind spaces and unwind-information cache | `UnwindSpaces`, `ProcInfoCache` |
| checksum of debug files | `Crc32Table`, `Crc32`, `Crc32Bursts`, `Crc32Residue` |
| address searches | `IntervalSearch` |

**Breakpoint protocol.** `Protocol` is a transition system. The environment moves threads, lets them run into
patched bytes, delivers their traps at any later time, creates and ends threads. The tracer reacts as the event
loop does. `Monitor.Tracer` is the event loop itself, with its variables, its array of held threads and its
8-byte reads and writes of target memory; every method is proved against the transition system, and so is what
other threads can do between two writes (`Transient`). The theorems about runs are in `ProtocolRuns` and
`Observations`.

Assumptions: a trap is reported only for an address that was patched when the thread hit it; the 8-byte words at the
four entries and at a pending return address do not overlap; the original text has no trap byte of its own
at an address where a thread traps; a fork copies the text; a thread does not leave while its own call is
pending; no more than 1001 threads are traced at one time, so that the array of held threads suffices; a write to
target memory takes effect exactly if the thread it goes through is stopped. Inside the loop that thread is the one
whose trap is handled. The clean-up writes through the main thread, which other threads can leave running.

**Block ledger.** `LedgerModel` has each operation as a function on plain values. `Ledger.BlockLedger` has the
operations on linked nodes and refines those functions. What the counters mean, what expiry does and what the
report says is proved of the functions for every session under a clock that does not go back. Counters are
mathematical integers. `Sessions.RunSession` puts the two tables together on the heap, from the first call to the
report. `EndToEnd` connects the two halves: the handlers' calls in a run of the protocol are a session of the ledger.

**Where the code does less than one might expect.** Each of these has a concrete witness or an exact condition:

- When an API is missing, `breakpoint_init` exits at once and leaves the traps set so far (`Monitor.Trace`).
- When another thread ends the loop while the main thread runs, the clean-up's writes fail and the traps stay
  (`Monitor.Trace`, `Monitor.NothingIsRestored`).
- A forked child is restored except for a return address that was patched at the fork (`Monitor.Tracer.DetachChild`).
- A thread whose trap is not reported before the loop ends is left one byte behind it
  (`Observations.TrapCanBeLost`, exactly when: `Observations.CounterIsBackIffDelivered`).
- All remaining threads can be held once the free ones have ended (`ProtocolRuns.EveryThreadCanBeHeld`,
  exactly when: `ProtocolRuns.SomeFreeExact`).
- Overlapping words would plant a trap again (`TargetText.OverlapPlantsTrap`, exactly when:
  `TargetText.RestoreSavedExact`).
- A failed `realloc` makes the ledger forget a block (`TrackedMap.FailedReallocExact`); a pointer tracked twice
  shows its older block again after a free or a moving `realloc`. For every call exactly when: `TrackedMap.HandleExact`.
- A backtrace is taken for a stored one if it is a prefix of it, or an extension and the memory behind the record
  agrees (`Callstacks.MatchExactIff`, `Callstacks.PrefixIsConfused`).
- A lifetime of zero resets the reported minimum (`ExpiryLaws.ZeroLifetimeResetsMinimum`, exactly when:
  `ExpiryLaws.MinimumExactIff`).
- A cached answer ignores everything but the address (`ProcInfoCache.TransparentIffFunctional`).
- A nested interval can be missed by the binary searches (`IntervalSearch.NestedIsMissed`), exactly when:
  `IntervalSearch.CompleteIffFindable`. A unit with a single line row is never answered
  (`IntervalSearch.SingleRowIsNotFound`). At an address where two maps touch, the one that ends there can be
  answered, exactly when: `IntervalSearch.OwnerIsAnswered`.

## Model

| member | source | states |
|---|---|---|
| `TargetText.Restore` | breakpoint.c:86-93 | writing the saved word back removes exactly the trap at that address |
| `TargetText.RestoreExact` | breakpoint.c:86-93 | writing the original word back removes exactly the trap at its address if and only if no other trap is in the word |
| `TargetText.RestoreSavedExact` | memleax.c:263-298 | the same for a word that was saved while other traps were set: if and only if the rest of the word has the same traps now as then, and none was at the address |
| `TargetText.SetTrap` | machines.h:77-84 | writing the trap word adds exactly one trap byte and changes no other byte |
| `TargetText.PeekUnpatched` | memleax.c:296-298 | the word saved at an unpatched address is the original one, whatever else is patched |
| `TargetText.IsBreakpointReadsOneByte` | machines.h:85-88 | the test of a whole word holds exactly when the byte at the address is the trap |
| `TargetText.OverlapPlantsTrap` | machines.h:77-84 | with overlapping words, writing a saved word back plants another trap in clean text; exactly when is `RestoreSavedExact` |
| `Protocol.UnwoundIsMidStep` | machines.h:71-76 | a delivered trap, unwound by one byte, stands at its own trap address, however late it is delivered |
| `Protocol.InvStep` | memleax.c:182-323 | every event of the environment and every reaction of the tracer keeps the protocol invariant |
| `Protocol.HeldFewerThanThreads` | memleax.c:252-257 | while a call is pending there are fewer held threads than traced threads |
| `ProtocolRuns.HandlersArePaired` | memleax.c:270-304 | in every run, each handler call has the breakpoint and arguments of the latest entry of the same thread and happens at the return address read there, with only other threads parked in between |
| `ProtocolRuns.WakesResumeParkedThreads` | memleax.c:283-287 | in every run, each wake resumes a thread at the address where it was parked, nothing of it being seen in between |
| `ProtocolRuns.StaleTrapsOnlyWhenIdle` | memleax.c:306-313 | in every run, a late trap is passed over only when a handler has run since every earlier entry |
| `ProtocolRuns.HeldThreads` | memleax.c:252-257 | in every run, held threads are distinct, stopped and traced, never the owner of the pending call; fewer than the traced threads while a call is pending, and always fewer than were traced at the busiest moment |
| `ProtocolRuns.FreeStepExact` | memleax.c:249-257 | one step keeps some traced thread free if and only if it is not the end of the last free thread |
| `ProtocolRuns.SomeFreeExact` | memleax.c:249-287 | throughout a run some traced thread is free if and only if the last free thread never ends |
| `ProtocolRuns.NoExitNoDeadlock` | memleax.c:249-257 | in particular, as long as no thread ends, some traced thread is not held |
| `ProtocolRuns.EveryThreadCanBeHeld` | memleax.c:283-287 | a run after which the only thread left is held and no call is pending |
| `ProtocolRuns.EnderIsStopped` | memleax.c:317-319 | the thread whose event ends the loop is stopped then |
| `ProtocolRuns.MainCanEndIt` | memleax.c:206-215 | the clean-up can write if the main thread ends the loop, and always if there is no other thread |
| `ProtocolRuns.MainCanBeLeftRunning` | memleax.c:315-319 | a run that another thread ends while the main thread runs |
| `Observations.LogIsTrue` | memleax.c:243-313 | every entry of the log of every run was true of the registers, the pending call and the held threads at the event that made it |
| `Observations.HandlersSeeTheCall` | memleax.c:253-304 | in every run, a handler closes the latest entry of its thread; its arguments are the thread's registers at the event that logged that entry, a trap at the API's entry; its result is the register at the event that logged the handler, a later trap at the return address that lay on the stack at the entry |
| `Observations.LastParkedFirstWoken` | memleax.c:252-287 | in every run the held threads are those parked and not yet woken, as a stack: the one parked last is woken first |
| `Observations.CounterIsBackIffDelivered` | memleax.c:247-249 | at the end of every run a thread stopped after a trap stands at the address of the last trap it hit if and only if that trap was delivered |
| `Observations.TrapCanBeLost` | memleax.c:191-203 | a run that ends with a thread one byte behind a trap that was not reported |
| `Monitor.TransientTrapIsEnabled` | memleax.c:263-298 | a trap hit while the tracer is between two writes is one the protocol allows before or after the step |
| `Monitor.TrapCommutes` | memleax.c:243-322 | a trap of one thread and the delivery of another thread's trap lead to the same state in either order |
| `Monitor.TransientStepIsEnabled` | memleax.c:263-298 | a thread without a pending call may run over any byte at any moment |
| `Monitor.Tracer.BreakpointInit` | breakpoint.c:60-84 | the text becomes the original with traps at the APIs found before the first missing one; if none is missing the tracer is ready |
| `Monitor.Tracer.BreakpointByEntry` | breakpoint.c:95-104 | finds the breakpoint of an entry address, or none |
| `Monitor.Tracer.BreakpointCleanup` | breakpoint.c:86-93 | removes exactly the traps at those of the four entries whose writes take effect |
| `Monitor.TrapsWhilePending` | memleax.c:289-304 | while a call is pending the traps are those of the other three entries and the return address; the return address is no entry |
| `Monitor.Tracer.Rearm` | memleax.c:263-268 | the text is again the original with traps at all four entries; both texts on the way are transient ones |
| `Monitor.Tracer.Arm` | memleax.c:292-298 | the text is the original with traps at the other three entries and the return address, whose original word is saved |
| `Monitor.Tracer.Hold` | memleax.c:252-257 | the thread is stored in the array, within bounds for up to 1001 traced threads, and the invariant holds |
| `Monitor.Tracer.WakeHeld` | memleax.c:283-287 | the thread held last runs again and leaves the array |
| `Monitor.Tracer.AtReturn` | memleax.c:270-287 | the handler step of the protocol, ending with no call pending |
| `Monitor.Tracer.AtEntry` | memleax.c:289-304 | the entry step of the protocol |
| `Monitor.Tracer.AtLateTrap` | memleax.c:306-313 | the late-trap step; the exit for an unknown breakpoint is never taken |
| `Monitor.Tracer.AtOther` | memleax.c:263-313 | a trap that is no return: a call of the same thread that was pending is forgotten, then the entry or late-trap step of the protocol |
| `Monitor.Tracer.HandleTrap` | memleax.c:243-322 | one iteration for a trap is one protocol step, keeps real text and registers equal to the protocol's, and never ends with an unknown breakpoint |
| `Monitor.Tracer.HandleOther` | memleax.c:205-241 | every other iteration is one protocol step |
| `Monitor.Tracer.DetachChild` | memleax.c:225-230 | a child forked at any moment, in the middle of an iteration too, gets back the original text if and only if no return address was patched at the fork |
| `Monitor.TransientIsSane` | memleax.c:263-298 | every text that a fork can copy has traps only at entries and return addresses |
| `Monitor.ForkMoments` | memleax.c:263-298 | while the trap at the return address is set a child does not come out clean; between the two writes that end the call, and with no call pending, it does |
| `Monitor.Tracer.CleanUp` | memleax.c:325-329 | the traps that are left are exactly those whose writes through the main thread failed |
| `Monitor.Tracer.EventLoop` | memleax.c:182-329 | for every run of events and every way to leave the loop, the text after the clean-up is the original with exactly the traps whose writes failed |
| `Monitor.Trace` | memleax.c:156-329 | from attaching to detaching: with an API missing, the text ends as it began if and only if it was the first; otherwise if and only if no write of the clean-up came before the main thread was stopped, or just the one at the entry of a pending call of the first API; so, unless it stops by itself in between, if and only if the main thread is stopped when the loop ends |
| `Monitor.RestoredIff` | memleax.c:325-329 | no trap is left if and only if no write failed, or only the first one, at the entry of a pending call |
| `Monitor.NothingIsRestored` | memleax.c:315-329 | a run after which the clean-up restores nothing, because another thread ended the loop while the main thread ran |
| `Rings.Insert` | list.h:28-36 | inserting between two neighbours gives the ring with the node at that position |
| `Rings.Add` | list.h:46-49 | the node becomes the first of the ring |
| `Rings.AddTail` | list.h:59-62 | the node becomes the last of the ring |
| `Rings.Delete` | list.h:83-87 | the ring without that node, all others in their order |
| `HashTables.HashSlot` | hash.h:16-25 | the XOR of the words of the key, modulo the table size |
| `HashTables.XorConcat` | hash.h:18-23 | the words of a key count each by itself |
| `HashTables.HashTable.AddHead` | list.h:218-226 | the node becomes the first of the chain, all back pointers right, other buckets untouched |
| `HashTables.HashTable.Bypass` | list.h:194-201 | the neighbours of the node point past it, through the back pointer alone |
| `HashTables.HashTable.Unlink` | list.h:203-208 | unlinking through the back pointer removes only that node and keeps the order of the others |
| `HashTables.HashTable.Add` | hash.h:27-31 | the node is first in the chain of its key, all other chains unchanged |
| `HashTables.HashTable.Delete` | hash.h:33-36 | the node's chain loses that node only, all other chains unchanged |
| `HashTables.HashTable.Search` | hash.h:38-50 | the first node of the bucket whose memory begins with the key, none before it matching |
| `LedgerLaws.HandleKeeps` | breakpoint.c:24-57 | every API call keeps the ledger invariant: balanced accounts, ids, creation order |
| `LedgerLaws.ExpireKeeps` | memblock.c:138-166 | every expiry check keeps the ledger invariant |
| `LedgerLaws.DeleteKeeps` | memblock.c:62-93 | a deletion keeps the balances, ids, order and lifetime extremes; which counters it changes is in `StatisticsAreTotals` |
| `LedgerLaws.ResizeKeeps` | memblock.c:95-102 | an in-place resize keeps them; the expired bytes are off by exactly the net resizing of expired blocks, which `StatisticsAreTotals` defines from the requests |
| `LedgerLaws.FreedOne` | memblock.c:84-88 | after one more lifetime: total, maximum, and minimum since the last zero |
| `LedgerRuns.BooksBalance` | memblock.c:32-136 | after every session, for every callstack: allocations minus frees are its live blocks and bytes, and the same for expired ones, up to the net resizing |
| `LedgerHistory.StatisticsAreTotals` | memblock.c:32-136 | after every session every counter of a callstack is the total over its history, read off the requests and the blocks live when they arrived: blocks and bytes allocated, freed, expired (bytes at that moment) and freed after expiry, the net resizing in place of expired blocks, and the list of lifetimes |
| `LedgerHistory.BlocksHaveOrigins` | memblock.c:40-54 | after every session each live block was asked for by a request that was answered with its pointer, has the time and the callstack of that request, and the blocks are in the order of their requests |
| `LedgerRuns.ExpiryIsBounded` | memblock.c:121-162 | in every session ids are 1..k in order of first expiry; it has stopped if and only if k exceeds C or some callstack has expired M blocks; in total at most C*(M-1) blocks expired, and one more when it has stopped |
| `LedgerRuns.SessionReplays` | breakpoint.c:24-57 | over every tame session the tracked pointers and sizes are those of a plain map, never the null pointer |
| `ExpiryLaws.ExpireIsFullScan` | memblock.c:138-166 | without hitting a limit, the early-stopping walk moves exactly the blocks a full scan selects and leaves the others in order |
| `ExpiryLaws.ExpireReturns` | memblock.c:145-165 | returns 0 exactly if no block is active, otherwise one more than the least remaining time |
| `ExpiryLaws.ExpireLimits` | memblock.c:151-162 | -1 is returned if and only if a limit is reached: some callstack has expired as many blocks as it may, or one callstack too many has expired any; then just one block too many has expired |
| `ExpiryLaws.CountFindsOldest` | memblock.c:168-188 | keeping the first age seen gives the greatest age of the callstack's live blocks |
| `ExpiryLaws.MinimumExactIff` | memblock.c:88 | the reported minimum is the least lifetime if and only if no lifetime is zero or the last one is |
| `ExpiryLaws.AverageOtherwise` | memblock.c:88 | in the remaining case the reported minimum is positive and the least lifetime behind the last zero; its comparison with the average is then arithmetic |
| `ExpiryLaws.AverageBetweenExtremes` | callstack.c:135-136 | the reported average is at most the reported maximum, and at least the reported minimum whenever that is the least lifetime |
| `ExpiryLaws.ZeroLifetimeResetsMinimum` | memblock.c:88 | after the lifetimes 0 and any t > 0 the reported minimum is above the average |
| `TrackedMap.TrackedIsFound` | memblock.c:104-112 | the tracked map is what the search sees: the newest block of each pointer |
| `TrackedMap.HandleReplays` | breakpoint.c:24-57 | one tame call changes the ledger as it changes a plain map, and no pointer repeats |
| `TrackedMap.HandleExact` | breakpoint.c:24-57 | every call, on every ledger, is replayed if and only if `Replayed` holds: calls that allocate or resize in place always; a free or a moving realloc of a pointer that is live at most once; a failed realloc as in `FailedReallocExact` |
| `TrackedMap.MovedReallocExact` | breakpoint.c:46-49 | a moving realloc is replayed if and only if at most one live block has the old pointer |
| `TrackedMap.FreeExact` | breakpoint.c:31-37 | a free is replayed if and only if at most one live block has the pointer |
| `TrackedMap.FailedReallocExact` | breakpoint.c:39-51 | for every ledger, when exactly a realloc that returns null leaves the tracked blocks right: the pointer is not tracked, or it was a free of a pointer live once, or an older block of the same size shows through |
| `TrackedMap.FailedReallocOfDistinct` | breakpoint.c:39-51 | without repeated pointers: if and only if its size was 0 or the block was not tracked |
| `TrackedMap.TrackedAfterRemove` | memblock.c:90-91 | what a deletion leaves of the tracked map: the next older block of the pointer, or nothing |
| `TrackedMap.TrackedRemove` | memblock.c:90-91 | deleting the newest block of a pointer untracks it if and only if no older one is there |
| `Ledger.SearchBlock` | memblock.c:104-112 | the newest live block with the pointer, also when pointers repeat |
| `Ledger.BlockLedger.New` | memblock.c:32-59 | on the heap: refines creation; both rings and all chains stay well formed |
| `Ledger.BlockLedger.Delete` | memblock.c:62-93 | on the heap: refines deletion |
| `Ledger.BlockLedger.UpdateSize` | memblock.c:95-102 | on the heap: refines the in-place resize |
| `Ledger.BlockLedger.Search` | memblock.c:104-112 | on the heap: refines the search |
| `Ledger.BlockLedger.ExpireOldest` | memblock.c:114-136 | on the heap: moves the oldest active block to the end of the expired list and assigns the next id |
| `Ledger.BlockLedger.Expire` | memblock.c:138-166 | on the heap: the walk that unlinks as it goes refines the expiry function, return value included |
| `Ledger.BlockLedger.CountUnfreed` | memblock.c:168-188 | on the heap: refines the counting pass |
| `Ledger.BlockLedger.Handle` | breakpoint.c:24-57 | on the heap: refines the four handlers, a moving realloc with the two times at which it reads the clock |
| `LedgerShape.OneBucketOneList` | memblock.c:53-54 | every live block is at one position of one chain and in one list, the expired list exactly if flagged |
| `LedgerShape.ChainHoldsLive` | memblock.c:90 | the chains hold nothing but live blocks |
| `LedgerShape.RingHoldsLive` | memblock.c:91 | the rings hold nothing but live blocks |
| `LedgerShape.CreationOrder` | memblock.c:114-119 | expired list followed by active list is the live blocks in creation order, the flag marking the first part |
| `Callstacks.PrefixOfKeys` | hash.h:45 | comparing memory over the query's length is the prefix test on backtraces |
| `Callstacks.MatchIsEquality` | callstack.c:30-35 | over prefix-free backtraces a record matches if and only if the backtraces are equal |
| `Callstacks.MatchExactIff` | hash.h:45 | the comparison tells two backtraces apart whatever lies behind the record in memory if and only if neither is a proper prefix of the other |
| `Callstacks.PrefixIsConfused` | hash.h:38-50 | every backtrace matches its stored extension by a zero and, with zeros behind the record, the other way round; both share a bucket |
| `Callstacks.CallstackTable.Current` | callstack.c:24-49 | for backtraces prefix-free with the stored ones the record returned is that of exactly this backtrace, the old one if there is one, and there are never two |
| `Callstacks.CallstackTable.Report` | callstack.c:96-117 | exactly the records with unfreed expired blocks, once each, in ascending order |
| `Callstacks.Sort` | callstack.c:84-91 | an ascending rearrangement of the list |
| `FinalReport.SelectionIsRight` | callstack.c:84-117 | a list chosen and sorted by counters has exactly the callstacks that own an expired live block, ordered by how many |
| `FinalReport.Report` | callstack.c:92-117 | the report lists exactly the owners of expired live blocks, once each, ordered by how many they own, each with the greatest age of its live blocks |
| `Sessions.Allocate` | memblock.c:32-59 | on the heap: a call that allocates finds or makes its callstack and books the block on it, ledger and callstack table staying consistent |
| `Sessions.Release` | breakpoint.c:31-47 | on the heap: a free or an in-place resize, without a callstack |
| `Sessions.Check` | memblock.c:138-166 | on the heap: an expiry check beside the callstack table |
| `Sessions.Serve` | memleax.c:278-320 | the exact step of the ledger for every request: a handler, booked on a record that matches its backtrace, or an expiry check; it ends the session if and only if it is a check and a limit is reached; it keeps the session invariant |
| `Sessions.Conclude` | memleax.c:339 | at the end of any session the ledger is unchanged but for the counted ages, the report is right, and the real counters of every callstack balance with the blocks in the ledger |
| `Sessions.RunSession` | memleax.c:172-339 | from empty tables through any requests to the report: the ledger is exactly what the requests served make of an empty one, each allocation booked on the record of its own backtrace when none is a proper prefix of another, with the ages counted; the session stops if and only if the last request was a check and a limit is reached in the ledger, and goes on after every other request; the report is right, all counters balance, and tame requests are tracked as in a plain map |
| `SessionHistory.SessionStatistics` | callstack.c:123-137 | the counters of every callstack at the end of a session on the heap are the totals over the requests served |
| `SessionHistory.SessionOrigins` | memblock.c:40-54 | each live block at the end of a session on the heap has the pointer and the time of a request and the callstack it was booked on, in the order of the requests |
| `EndToEnd.LedgerOfRun` | memleax.c:270-319 | for every run of the breakpoint protocol with its ledger, each expiry check returning what it returns on the ledger of its moment: the ledger at the end is that of the session whose requests are exactly those of the events, with their times and callstacks; its calls are those in the log; it is stopped if and only if the last event made a check that reported a limit; its books balance, and if the calls are tame it tracks what a plain map makes of them |
| `EndToEnd.CoupledRun` | memleax.c:182-323 | the same from any state: the ledger carried through the run, event by event, is the one that the session of all requests ends with |
| `EndToEnd.LimitStops` | memleax.c:315-319 | an expiry check that reports a limit ends the loop |
| `EndToEnd.OneCall` | memleax.c:270-287 | an event runs at most one handler |
| `EndToEnd.ChecksUnlessHeld` | memleax.c:252-257 | the expiry check is made on an alarm, and on a trap unless another thread's call is pending |
| `EndToEnd.RequestsAreOfEvent` | memblock.c:50-68 | the requests of an event carry its times and its callstack |
| `RegistersToLedger.RegistersReachTheLedger` | breakpoint.c:24-84 | for every handler in any run with its ledger: by the entry at which its thread trapped, the tracked blocks change as malloc, free, realloc or calloc says of rdi and rsi at that trap and rax at the return |
| `RegistersToLedger.HandlerActs` | memleax.c:278 | the handler of an event acts on the ledger of its moment, and the check behind it moves no block in or out |
| `UnwindSpaces.RecentByLastUse` | ptr_backtrace.c:210-212 | the reference order is by last use, latest first |
| `UnwindSpaces.SearchStop` | ptr_backtrace.c:185-196 | stopping at the first unused slot is sound: a thread with a slot is found at it |
| `UnwindSpaces.MoveToFront` | ptr_backtrace.c:198-212 | moving the chosen slot to the front is one more use in the recency order; only the least recently used thread is evicted |
| `UnwindSpaces.Setup` | ptr_backtrace.c:171-183 | the first call links all ten slots, all unused |
| `UnwindSpaces.Use` | ptr_backtrace.c:185-212 | the ring refines the recency order, the slot belongs to the thread, created minus destroyed changes as the used slots do |
| `UnwindSpaces.Spaces.Acquire` | ptr_backtrace.c:165-212 | after any sequence of backtraces the slots are the ten most recent threads, then unused ones, and as many spaces exist as slots are used |
| `ProcInfoCache.Cache.Find` | ptr_backtrace.c:126-157 | every query gets the library's first answer for its address |
| `ProcInfoCache.FirstAnswerOf` | ptr_backtrace.c:150-155 | what the cache holds for an address is the answer to its first query |
| `ProcInfoCache.TransparentIffFunctional` | ptr_backtrace.c:137-145 | the cache cannot be noticed if and only if the library's answer depends on the address alone |
| `Crc32Table.TableIsRight` | debug_file.c:23-76 | every table entry is its index divided bit by bit by the polynomial |
| `Crc32.TableStepShifts` | debug_file.c:81 | one table step is eight steps of the division of the register with the byte added |
| `Crc32.TableIsBitwise` | debug_file.c:79-82 | the table-driven loop is bit-at-a-time division, for every message and register |
| `Crc32.Update` | debug_file.c:21-83 | one call is the table-driven loop between two inversions |
| `Crc32.FileCrc` | debug_file.c:85-95 | for every split of a file into chunks the result is the CRC-32 of section 8 of RFC 1952 of the whole file, which `ChecksumLeavesResidue` characterizes |
| `Crc32Residue.ChecksumLeavesResidue` | debug_file.c:78-83 | a file followed by four bytes leaves 0xDEBB20E3 in the register if and only if the bytes are those of its checksum, low byte first |
| `Crc32Residue.WordEnters` | debug_file.c:80-81 | the four bytes of a word enter the register as the word does at once |
| `Crc32.FewBytes` | debug_file.c:79-82 | up to four bytes map injectively to the register, whatever it held |
| `Crc32.StepsInjective` | debug_file.c:79-82 | different registers stay different over equal bytes |
| `Crc32.BurstIsDetected` | debug_file.c:21-95 | files of equal length that differ only within four consecutive bytes have different checksums |
| `Crc32Bursts.FewBits` | debug_file.c:79-82 | up to 32 bits map injectively to the register, whatever it held |
| `Crc32Bursts.BitBurstIsDetected` | debug_file.c:21-95 | files of equal length that differ only within 32 consecutive bits, at any bit position, have different checksums |
| `IntervalSearch.CompleteIffFindable` | symtab.c:158-175 | a table sorted by start is searched correctly for every address if and only if `Findable`: wherever a span reaches between two starts, a span at one of the visited positions reaches as well |
| `IntervalSearch.SearchExact` | symtab.c:158-175 | one search succeeds if and only if a visited span reaches to the address, and answers the first that does |
| `IntervalSearch.MonotoneIsFindable` | symtab.c:158-175 | ordered ends are enough |
| `IntervalSearch.SearchIsScan` | symtab.c:158-175 | ordered starts and ends suffice for the search to agree with a scan; exactly when is `CompleteIffFindable` |
| `IntervalSearch.DisjointIsMonotone` | symtab.c:130-135 | disjoint intervals sorted by start are ordered by end as well |
| `IntervalSearch.NestedIsMissed` | symtab.c:158-175 | a table sorted by start that is not `Findable`, and the address that is missed |
| `IntervalSearch.MonotoneIsNotNecessary` | symtab.c:158-175 | a table without ordered ends that is `Findable` |
| `IntervalSearch.SymtabByAddress` | symtab.c:158-175 | a symbol found holds the address, with the offset as a 32-bit int; the answer is that of the modelled search, so in a table sorted by start and `Findable` a symbol is found if and only if one holds the address |
| `IntervalSearch.AddrMapsSearch` | addr_maps.c:50-66 | the name of a map that holds the address, upper end included, or `??`; the answer is that of the modelled search, so in a table sorted by start and `Findable` it is `??` only if no map holds it |
| `IntervalSearch.OwnerIsAnswered` | addr_maps.c:50-66 | of the map that holds an address, upper end excluded, the name is answered unless the map before it ends at the address and is visited first |
| `IntervalSearch.RowsCoverUnit` | debug_line.c:82-104 | the rows of a unit leave no gap between its ends, provided there are two |
| `IntervalSearch.SearchRows` | debug_line.c:82-111 | a row whose address is at most the target and whose successor's is at least it, the one the modelled search answers; with ordered rows found if and only if the unit covers the address and has two rows |
| `IntervalSearch.DebugLineSearch` | debug_line.c:276-299 | the two-level search: sound always, with the unit and the row that the modelled searches answer; if exactly one unit covers the address, found in that unit if and only if it has two rows |
| `IntervalSearch.SingleRowIsNotFound` | debug_line.c:86 | a unit of one row covers its address but the row search finds nothing |

## Left out

- ptrace, waitpid, signals and alarm as system calls: only their effect on text, registers and thread states is modelled.
- A child that stops while an alarm is pending takes the alarm's branch and is continued, not detached (memleax.c:209-211); the protocol's alarm stops a traced thread only.
- vfork children, which share the parent's memory, and a thread that ends while its own call is pending.
- A target that has exited when the loop ends has no text left; the protocol treats this as one of the ways to leave the loop.
- Return addresses whose word overlaps an entry, lies outside the mapped text or holds a trap byte of the program's own: excluded, with `TargetText.OverlapPlantsTrap` showing why.
- More than 1001 traced threads, which would overrun the array of held threads.
- Fairness and eventual wake-up of held threads, and calls that run through an entry while it is unpatched: the program does not promise them.
- The x86, ARM, AArch64 and FreeBSD variants of the machine-dependent operations: other word sizes and trap encodings.
- 32-bit overflow of the counters and failing allocation in the tracer's own tables; a handler that fails is an input of the protocol.
- Backtraces are inputs of a session; how they are unwound is not modelled. The report is made whatever the length of the session (memleax.c:333-337 skips it for short ones).
- libunwind, libelf, libdw and libdwarf, reading ELF sections, build ids and maps: line tables, symbols and unwind answers are inputs.
- The loop that asks libunwind for one frame after another, the memory accessor over mapped sections, and the compilation-directory prefix that one of the two DWARF variants strips from file names.
- `symtab_by_name`, growth of arrays, the sorting algorithm of the C library, printing, options and logging.
- Callstacks.Sort: specifies the library sort by an ordered rearrangement; the order of equal elements is not the library's.
- EndToEnd.LedgerOfRun: runs in which a handler fails are left out, because allocation in the tracer's own tables does not fail in the ledger.
