# A model of gcscope's monitoring pipeline

gcscope watches Python's garbage collector from outside the process. A writer inside the target
publishes cumulative Records through small rings; gcscope polls those rings without a lock, drops
what it has already reported, and reconstructs what ran, Collections it never read included. This
project models that pipeline and the code around it and proves what it promises.

`dafny verify dfyconfig.toml` checks everything.

## How it is laid out

| files | what they model |
|---|---|
| `RingWriter`, `ProbeCallback` | the ring writer, one transition per store, and the callback that drives it |
| `Records`, `Observation`, `Cursor`, `CursorLaws`, `CursorRuns`, `CursorAccounting` | the cursor: a functional specification, the class that carries it out, and its laws over runs |
| `Loss` | the reconstruction of counts and pauses |
| `MonitorRun`, `MonitorSpans`, `MonitorOnce`, `MonitorResets` | writer and reader interleaved: nothing false is returned, and exactly when nothing is returned twice |
| `MonitorExact`, `MonitorLedger` | what every figure of every accumulator and every summary row means, and that none is missing or counted twice |
| `Lossless`, `LosslessOrder`, `LosslessRun` | exactly when a poll cannot skip a Collection, read in any order or first to last, and runs that lose none |
| `TimestampCursor` | the refinement of the older cursor |
| `ProbeSlots` | concurrent slot claiming |
| `Version`, `VersionScan`, `Text` | the version grammar and the byte scanner |
| `ChainWalk` | the interpreter chain of a process that mutates it |
| `Lifecycle`, `RunLoop` | processes attached, polled, reported and let go of |
| `Ancestry`, `ProcessTree`, `TreeBuild` | the process listing as a tree |
| `Bytes`, `GcStats`, `OffsetTable` | entry geometry and field access on bytes |
| `TraceEvents`, `TraceMeaning`, `Json`, `JsonGrammar`, `ChromeTrace`, `ChromeText`, `TraceStream` | Records to trace events to a JSON file, character by character, and the grammar of JSON |
| `Summary`, `Snapshot` | the end-of-run summary and the snapshot figures |
| `Prelude`, `StableSort` | shared vocabulary and a stable sort |

Code that updates fields in place (the ring, the cursor, the context, the run loop, the slot table,
the exporter, the callback) is a class or a method with loops, proved against a function of the old
state; the laws are proved about that function. Inductive proofs are written out: no lemma leaves its
induction to the verifier.

## Assumptions

- The clock is monotone: a Collection never starts before the previous one of its ring stopped.
  `ProbeCallback.CallsInTime` derives this, and that durations are exact, from a monotone clock.
- An Entry is read in one piece, and stores are seen in program order.
- A process keeps its rings for as long as it is followed under one PID; another that takes the PID
  over is a new process, attached to with whatever the cursor was left holding.
- Doubles print as Rust prints them: a decimal, or `NaN`, `inf` or `-inf` when the exponent bits are
  all ones.
- What the operating system answers (attach, reads, revalidation, child lists, clocks, the running
  flag) is arbitrary: every theorem holds for every answer.

## Where the code and what is said of it part

- `run_loop` looks for processes that vanished from the child lists (lines 99-106). Every process it
  remembers is also followed, and everyone followed is listed, so the search never finds one
  (`RunLoop.Run`): a process leaves through its wait policy or at the end.
- A poll that two Collections complete under can lose one, however deep the ring
  (`Lossless.StraddlingPollLoses`, `Lossless.NeverSkipsIff`, `LosslessOrder.NeverSkipsInOrderIff`).
- A Collection is returned once only while its ring's accumulator lasts (`MonitorSpans.RunSplits`).
  Two things end it early. An interpreter is evicted for room, which a process of more than 1024 can
  always bring about (`MonitorResets.OnceIff`) unless the interpreter is in every poll
  (`MonitorOnce.SteadyReturnsOnce`). And a live process is let go of: the startup policy gives up on
  the first failed read after a good one (`src/monitor/run_loop.rs:51-65`), and the next turn finds
  the child again and reads its rings from the start (`MonitorResets.LetGoRepeatsIff`,
  `Lifecycle.LetGoReportsAgain`). The figures stay exact either way, span by span
  (`MonitorExact.SummaryIsTruth`, `MonitorLedger.ListedAreSpans`).
- A claimed slot reads as interpreter 0's until its owner's id lands, so slot claiming is exclusive
  exactly when interpreter 0 is out of danger first (`ProbeSlots.SafetyIff`).
- A listed process whose listed parent has pid 4 or less is a root and a child both and is listed
  twice; one that is its own ancestor besides never stops being flattened; the walk up never ends on
  cyclic Python parents; and a cycle that runs through a stranger drops the processes on it from the
  table without a word (`ProcessTree.OnceIff`, `TreeBuild.ReturnsEachOnceIff`,
  `TreeBuild.LoopIsDropped`).
- A duration that is an infinity or not a number prints as a word JSON does not have (section 6 of
  RFC 8259), and the whole trace file is no JSON text (`TraceStream.TraceIsJsonIff`,
  `TraceStream.InfinityIsNoJson`).
- A sub-step with no start field is drawn from where the one before it ended
  (`src/monitor/convert.rs:14-24`). A build that lacks every such field has it drawn from the start of
  the pause, across sub-steps already drawn (`TraceMeaning.TimesRiseIff`, `TraceMeaning.SparseRunsBack`);
  the one registered build that times sub-steps has them all.
- Two spans of one recycled PID share a block when the later opens with a generation the earlier
  lacks (`Summary.BlocksAreSpansIff`, `Summary.RecycledMerges`).

## Model

| member | source | states |
|---|---|---|
| RingWriter.StepValid | gcscope_probe/src/gcscope_probe.c:296-348 | Every store of every publish, in any ring, keeps the ring valid: the other positions still hold the newest Collection of their residue, and the one being overwritten is a partial publish over a copy of its predecessor. |
| RingWriter.EntryKinds | gcscope_probe/src/gcscope_probe.c:318-345 | At every store point each Entry is untouched zero, what a finished Collection published, a copy of its predecessor, or in flight and refused by the completeness test; whatever passes that test is exactly what some finished Collection published. |
| RingWriter.QuiescentRing | gcscope_probe/src/gcscope_probe.c:275-294 | Between publishes a counter is held if and only if it is one of the last min(n, SIZE). |
| RingWriter.CumMeans | gcscope_probe/src/gcscope_probe.c:318-345 | The totals an Entry carries: collected and uncollectable summed over every Collection up to its own, the heap size of that one, and no candidates. |
| RingWriter.StatsRing.AddStats | gcscope_probe/src/gcscope_probe.c:299-348 | Publishing store by store appends one Collection to the history, leaves its running totals at the new index, and changes no other Entry; the ring is valid between any two stores. |
| ProbeCallback.CallsInTime | gcscope_probe/src/gcscope_probe.c:540-606 | Whatever starts and stops the collector sends in whatever order, under a clock that never runs backwards each ring publishes Collections that do not overlap, in order, each priced at exactly its own width: the assumptions the writer and the reader rest on. |
| ProbeCallback.PublishedAtMostOnce | gcscope_probe/src/gcscope_probe.c:563-575 | Each start is published at most once, and a stop with none waiting publishes nothing. |
| ProbeCallback.RingsHoldTheirStops | gcscope_probe/src/gcscope_probe.c:540-611 | From a slot as claimed, whatever is called: each ring holds exactly the stops of its generation that closed a start, in order, with both clock readings, the width in seconds, collected, uncollectable and the start's heap each in its field; a start waits exactly when it was the last call. |
| ProbeCallback.ProbeSlot.Callback | gcscope_probe/src/gcscope_probe.c:540-611 | The callback does to the slot and its three rings exactly what the specification of one call says, and never hands a ring a Collection it could not publish. |
| Observation.FoldAllMeaning | src/monitor/cursor.rs:129-143 | A fold keeps the first and the last Record's totals, counts every Record and sums every pause. |
| Observation.SelectComplete | src/monitor/cursor.rs:219-245 | Offered in counter order, every counter past the cursor that can be taken is taken. |
| Cursors.Cursor.AdmitRecords | src/monitor/cursor.rs:211-251 | One poll on the cursor's fields (sort, retain, test, fold, sort) leaves the state and returns the Records the functional specification gives. |
| Cursors.Cursor.RetainInterpreter | src/monitor/cursor.rs:258-281 | Retention on the fields: refresh, insert, or drop exactly the stalest interpreter, ties to the smaller id. |
| Cursors.Cursor.ForgetPid | src/monitor/cursor.rs:318-334 | Forgetting retires the accumulators of one process in key order and leaves everyone else's. |
| CursorLaws.FoldProject | src/monitor/cursor.rs:217-245 | A ring whose interpreter the fold does not evict sees only its own candidates, as if no other ring existed. |
| CursorLaws.AdmitProject | src/monitor/cursor.rs:211-251 | Seen from one ring, a poll folds exactly the Records selected from it alone and hands them out in the order taken whenever starts rise with counters. |
| CursorLaws.TakenComplete | src/monitor/cursor.rs:211-251 | Every counter past a ring's cursor that a poll holds a finished Record of is returned by that poll. |
| CursorLaws.TakenSound | src/monitor/cursor.rs:211-251 | Nothing else is returned: only finished Records of that ring, past its cursor, in rising counter order. |
| CursorLaws.HandedOutByStart | src/monitor/cursor.rs:213-250 | A poll hands its Records out by start time, and those that start together by interpreter, generation and counter. |
| CursorLaws.OneRecordPoll | src/monitor/cursor.rs:211-251 | Which single Record a poll returns, field by field: finished, a counter above zero and above the last one kept; and what moment the certainty bound then rises to, the start of one in flight or the stop of one returned, never downward. |
| CursorLaws.EvictionNeedsCrowd | src/monitor/cursor.rs:270-280 | An eviction can hit a recently seen interpreter only when more than 1024 are recent. |
| CursorLaws.RoomIsMade | src/monitor/cursor.rs:258-291 | Naming an interpreter stamps it with this poll; only when it is new and 1024 are kept does one go, the least recently seen with ties to the smaller id, and with it its accumulators, its bound and nothing else, the drop counted once. |
| CursorLaws.ForgetInOrder | src/monitor/cursor.rs:318-334 | Forgetting a process appends each of its accumulators once to the retired, in rising order of interpreter and generation, under the number of evictions before, and counts one eviction more. |
| CursorRuns.RunBounded | src/monitor/cursor.rs:26-26 | Over any polls and deaths of any processes, at most 1024 interpreters per process are kept, every live ring and every certainty bound belongs to a kept one, and no accumulator is empty. |
| CursorRuns.SteadyKeepsFirst | src/monitor/cursor.rs:258-281 | An interpreter in every poll of its process keeps the totals it opened with, whatever else runs, as long as no two consecutive polls together name more than 1024. |
| CursorRuns.ApplyFrame | src/monitor/cursor.rs:211-334 | A poll or a death of one process changes nothing another process is cursored on. |
| CursorRuns.ForgetIsFresh | src/monitor/cursor.rs:318-334 | After its process died a recycled PID is read exactly as a cursor that never saw it would read it: on every run of polls and deaths from there, each of its polls returns the same. |
| CursorRuns.RunLocal | src/monitor/cursor.rs:211-334 | What a process's polls return, over any run, depends on nothing but what the cursor held of that process when the run began. |
| CursorAccounting.Conservation | src/monitor/cursor.rs:318-357 | Over any run, the Records counted by live and retired accumulators plus those destroyed by eviction are exactly the Records ever returned. |
| TimestampCursor.SelectFreshByTimestamp | src/monitor/cursor.rs:920-937 | The cursor this one replaced, as the loop it was. |
| TimestampCursor.RunAgrees | src/monitor/cursor.rs:997-1030 | On every run of quiescent snapshots where nothing is overwritten unread and no two Collections start together, the counter-keyed cursor returns, tick for tick, the same sequence as the timestamp cursor. |
| Loss.AccountAddsUp | src/monitor/loss.rs:62-96 | For any accumulator the cursor can build: exact is observed plus lost, neither is negative, no step leaves 64 bits, and a timed span's coverage is in (0, 1] and is 1 exactly when nothing was lost. |
| Loss.CoverageIsShare | src/monitor/loss.rs:84-88 | Coverage times the exact count is the observed count, and the observed count is the Records read. |
| Loss.AccountWithoutSpan | src/monitor/loss.rs:62-100 | A ring nothing was read of, or of a build without timestamps: no pause figure, no Collection observed, the exact count the rise alone, coverage one or zero. |
| Loss.PauseAddsUp | src/monitor/loss.rs:102-131 | A pause is priced exactly when the build bounds and totals its Collections; priced, it is what was measured plus a remainder never below zero, and the scale is never below one. |
| Loss.PriceIs | src/monitor/loss.rs:109-131 | With totals that are numbers the exact pause is their difference to the nearest nanosecond plus the opening pause, each sum kept in 64 bits, or what was measured if that is more. |
| Loss.NoTotalNoPrice | src/monitor/loss.rs:109-131 | With a total that is no number it is what was measured, nothing lost and scale one. |
| Loss.RoundTies | src/monitor/loss.rs:136-139 | Halves round away from zero. |
| Loss.SaturateNearest | src/monitor/loss.rs:117-139 | What a cast or a sum keeps of a number out of range is the nearest 64-bit one. |
| Loss.PauseDrift | src/monitor/loss.rs:109-139 | If each stored total is within d seconds of the truth, the priced pause is within 2d seconds and half a nanosecond of it, rounding, saturation and floor included. |
| MonitorRun.StepKeepsInv | gcscope_probe/src/gcscope_probe.c:299-348 | For every interleaving of writer stores, single Entry reads, poll ends, failed reads, lettings go and other processes' events: every Record in hand is in flight or what a finished Collection published, and every Record returned is the latter. |
| MonitorSpans.RunReturnsTruth | src/monitor/cursor.rs:211-251 | Over every interleaving from attach on, each Record a run returns equals the one a finished Collection published. |
| MonitorSpans.RunSplits | src/monitor/cursor.rs:129-143 | Any run, any number of interpreters: put end to end, the spans between a ring's resets are exactly its output, counters rise strictly within each, and the accumulator is the fold of the last. |
| MonitorOnce.UndisturbedReturnsOnce | src/monitor/cursor.rs:129-131 | A ring that is never reset gives out no Collection twice: its counters rise strictly across the whole run. |
| MonitorOnce.SteadyReturnsOnce | src/monitor/cursor.rs:20-25 | However many interpreters come and go, one in every poll is returned once, as long as no two consecutive polls together name more than 1024. |
| MonitorResets.OnceIff | src/monitor/cursor.rs:26-26 | Every run that never lets go of the process returns each Collection of each ring at most once if and only if the process has no more than 1024 interpreters, or every ring's 64-bit counter is spent and no Entry shows, or is about to show, a Collection that took time. |
| MonitorResets.EvictionReadsAgain | src/monitor/cursor.rs:270-291 | With more, there is a run that reads one, crowds it out in a single poll, and returns its Record again. |
| MonitorResets.LetGoRepeatsIff | src/monitor/run_loop.rs:120-138 | With one letting go there is a run that returns a Collection twice, however few interpreters the process has and whatever state its rings are in, unless they have nothing to show in that sense; then no run returns anything. |
| MonitorExact.AccountIsTruth | src/monitor/loss.rs:67-104 | Every accumulator any run ends with, live or retired, any number of interpreters, whatever was overwritten: the exact count is the number of Collections that ran from the first Record of its span to the last, lost is the number of those never read, coverage the share of them that were read, measured is the pause of those read and at most the true pause. |
| MonitorExact.PauseIsTruth | src/monitor/loss.rs:109-131 | When durations are exact, the exact pause of every such accumulator is the true sum of pauses over its span. |
| MonitorExact.PauseIsNearTruth | src/monitor/loss.rs:109-139 | When each stored total drifts by at most d seconds, that pause is within 2d seconds and half a nanosecond of the true sum. |
| MonitorExact.SummaryIsTruth | src/monitor/statistics.rs:92-141 | The rows of the summary, block by block, are the accumulators in order, and each row of the process carries the figures of exactly the Collections its span covers: counts, losses, objects collected, and the pause where durations are exact. |
| MonitorLedger.ListedAreSpans | src/monitor/cursor.rs:318-357 | Nothing is left out and nothing counted twice: after what was retired of a ring before the run, what is listed of it is the folds of its spans of the run, the empty ones and those ended by eviction aside, each once, in the order they were read. |
| Lossless.SnapshotReads | src/monitor/cursor.rs:219-245 | A snapshot between any two stores returns a counter if and only if it is past the cursor and within the ring's depth at that store; it loses nothing if and only if no more than that many ran since. |
| Lossless.PollLosesNothing | src/monitor/cursor.rs:211-251 | Reading one Entry at a time while the writer moves: with at most one Collection completing during the poll and at most SIZE-1 since the last one began, the next Collections come out without a gap. |
| LosslessRun.RunLosesNothing | src/monitor/cursor.rs:211-251 | Over the interleaved run itself: a ring read from its first Collection, whole, by polls that quick and frequent has every Collection in its output, once, in order, up to those finished when the last poll began. |
| Lossless.StraddlingPollLoses | src/monitor/cursor.rs:211-251 | In a ring of any size, with any history, two Collections completing inside one poll can have the poll return the second and never the first. |
| Lossless.NeverSkipsIff | src/monitor/cursor.rs:211-251 | For rings of two Entries or more: no order of stores and single Entry reads makes a poll skip a Collection if and only if at most one completes during it and fewer than a ring are unread when it ends. |
| LosslessOrder.NeverSkipsInOrderIff | src/monitor/cursor.rs:211-251 | For polls that read the Entries first to last, as they lie in memory: none skips a Collection if and only if fewer than a ring are unread when it ends and at most one completes during it, or two do and the second lands on the first Entry. |
| ProbeSlots.StepKeepsInv | gcscope_probe/src/gcscope_probe.c:243-267 | Every shared access of the lookup, by any interpreter, keeps the slot invariant while interpreter 0 is guarded. |
| ProbeSlots.SafetyIff | gcscope_probe/src/gcscope_probe.c:243-267 | From any settled state, no interleaving ever shares a slot, gives one interpreter two, or refuses one while a slot is free, if and only if interpreter 0 is absent, served, alone in needing a slot, or too late for everyone. |
| ProbeSlots.ZeroIntrudes | gcscope_probe/src/gcscope_probe.c:257-264 | Otherwise there is a schedule in which interpreter 0 takes a slot another has claimed and not yet labelled. |
| ProbeSlots.FirstInterpreterFirst | gcscope_probe/src/gcscope_probe.c:243-267 | With slot 0 held by interpreter 0, every interleaving is exclusive. |
| ProbeSlots.RefusesIff | gcscope_probe/src/gcscope_probe.c:243-267 | With interpreter 0 out of danger, some interleaving refuses an interpreter a slot if and only if the process has more than eight. |
| ProbeSlots.SlotTable.SlotForInterp | gcscope_probe/src/gcscope_probe.c:252-266 | Alone, the lookup returns the slot under this id, else claims the first free one, else refuses, and changes nothing but the slot it claims. |
| Version.HexRoundTrip | src/remote_debugging/version.rs:19-42 | Unpacking a packed version gives it back if and only if level and serial fit their nibbles and X.Y is not 0.0. |
| Version.HexInjective | src/remote_debugging/version.rs:36-42 | Two versions whose fields fit never share a hex. |
| Version.HexSpells | src/remote_debugging/version.rs:36-42 | A packed version is its fields spelled out: a byte each for X, Y and Z, half a byte each for level and serial. |
| Version.ParseDigits | src/remote_debugging/version.rs:128-140 | The checked 8-bit accumulator succeeds exactly when the digit run is non-empty and its value is at most 255, and returns that value. |
| Version.ParseIff | src/remote_debugging/version.rs:83-126 | The parser accepts exactly the strings of the grammar X.Y.Z with an optional aN, bN or rcN, N at most 15, and reads what they spell. |
| Version.Parse | src/remote_debugging/version.rs:83-126 | The parser as it runs over its stream computes that function. |
| Version.PrintParse | src/remote_debugging/version.rs:45-57 | Parsing inverts printing if and only if the version is a final with serial 0 or an alpha, beta or candidate with serial at most 15. |
| Version.OddLevelPrints | src/remote_debugging/version.rs:45-57 | A level that is none of the four prints as a dash and its hexadecimal digits. |
| VersionScan.CharCodes | src/remote_debugging/version.rs:62-75 | The bytes a literal may hold and the bytes it may end at, by their codes. |
| VersionScan.MatchIff | src/remote_debugging/version.rs:343-374 | A position matches if and only if a literal stands there: 3., a left neighbour outside the charset, a maximal run that the grammar accepts whole, and a terminator or the end. |
| VersionScan.FirstIff | src/remote_debugging/version.rs:343-374 | A version is found if and only if it is the one at the first position that has any. |
| VersionScan.NoneIff | src/remote_debugging/version.rs:343-374 | Nothing is found if and only if no position matches. |
| VersionScan.ScanForVersion | src/remote_debugging/version.rs:343-374 | The byte-by-byte scan finds the first match. |
| VersionScan.ScanSkippingRuns | src/remote_debugging/version.rs:368-371 | Jumping to the end of a refused run finds the same on every input. |
| VersionScan.ScanFindsPrinted | src/remote_debugging/version.rs:343-374 | A representable 3.x version printed after any prefix that ends outside a run and before any terminator or the end is found, unless the prefix holds an earlier literal, which then is. |
| VersionScan.ScansNeverCollide | src/remote_debugging/version.rs:36-42 | Two scans that pack to one hex found the same version. |
| ChainWalk.RouteIff | src/remote_debugging/session.rs:627-667 | The addresses a walk stops at are the one sequence with no repeat, each linked to the next as memory answered then, ending at a null, unreadable or revisiting link. |
| ChainWalk.AnswerMeans | src/remote_debugging/session.rs:593-618 | What one answer contributes: every Entry of it under its id when the id is zero or more, the region there and the Entries read; nothing otherwise, and an error exactly when the id, or past a good id the region, or past a region there the Entries, could not be read. |
| ChainWalk.WalkInterpreterChain | src/remote_debugging/session.rs:627-667 | For memory that may answer differently every time, the walk ends, asks each address once, and returns, stop by stop in path order, exactly what each answer contributes; it fails exactly when the head's Records or, when every interpreter is wanted, its link cannot be read. |
| ChainWalk.ListTraversal | src/remote_debugging/session.rs:627-667 | On a readable list that ends it is plain list traversal: the nodes in order, and what each of them contributes. |
| ChainWalk.NoStopTwice | src/remote_debugging/session.rs:638-640 | No address is asked twice, however memory changes under the walk. |
| Lifecycle.LifeAlternates | src/monitor/context.rs:121-124 | In a log that replays, each process's events alternate start, end, start, and it is up exactly when the last was a start. |
| Lifecycle.ReportedWhileUp | src/monitor/context.rs:121-128 | Records are reported only of a process then up. |
| Lifecycle.PollCoherent | src/monitor/context.rs:73-129 | Whatever attach, read, revalidate and reread answer, a poll keeps the log truthful and the cursor what its history made it. |
| Lifecycle.PollTracked | src/monitor/context.rs:73-129 | A poll keeps state for no process but those followed. |
| Lifecycle.PollSucceedsIff | src/monitor/context.rs:73-129 | A poll answers valid if and only if the process can be reached and the first read, or the second of a process found the same, gives Records; then its start is told if it was down, the new Records are reported, and the drop mark follows the cursor's count. |
| Lifecycle.PollFails | src/monitor/context.rs:73-129 | Otherwise: unreachable changes nothing; another program under the PID loses session, cursor slice and mark; a dead one or a second failure keeps them; each of those ends it once if it was up. |
| Lifecycle.LetGoTracked | src/monitor/context.rs:209-217 | Letting a process go removes its session, cursor slice and warning mark, and nobody else's. |
| Lifecycle.LetGoDrops | src/monitor/context.rs:209-217 | It also tells the end once, if the process was up. |
| Lifecycle.MonitorContext.PollPid | src/monitor/context.rs:73-129 | The poll on the context's fields does what its specification says in every branch. |
| Lifecycle.MonitorContext.MarkDied | src/monitor/context.rs:209-217 | The single eviction point drops session, cursor slice and warning mark and reports the end once. |
| Lifecycle.AtRest | src/monitor/context.rs:209-225 | With nothing kept for anyone: no session, nobody up, no live ring, every start has its end, and every Record ever reported is counted by a retired accumulator or was evicted for room. |
| Lifecycle.LetGoReportsAgain | src/monitor/context.rs:73-129 | One failed read is enough for a live process to be let go of, and what it still holds is reported again when it is taken up again. |
| RunLoop.PolicyGoesOnIff | src/monitor/run_loop.rs:21-66 | After any polls, NoWait goes on if and only if this one succeeded; StartupTimeout if it did, or if none before did and the window is open. |
| RunLoop.TurnSettles | src/monitor/run_loop.rs:117-142 | A turn decides every process polled on its own, whatever the others meet and wherever it stands in the order: it stays followed, seen and remembered exactly if its policy goes on, and is up exactly if it was read too. |
| RunLoop.FollowedIsUp | src/monitor/run_loop.rs:21-142 | Between the turns of any run under NoWait the processes followed with a policy are the ones up; under StartupTimeout a process is up exactly when its policy remembers a success. |
| RunLoop.PollEachInHand | src/monitor/run_loop.rs:120-138 | A turn of polls and wait policies keeps everything followed, remembered or kept within the processes still followed. |
| RunLoop.NobodyLeft | src/monitor/run_loop.rs:121-142 | A turn in which no policy would go on leaves nobody to follow. |
| RunLoop.Sweep | src/monitor/run_loop.rs:99-107 | The sweep lets go of exactly those seen last turn and not listed now; if there are none it changes nothing. |
| RunLoop.PollAll | src/monitor/run_loop.rs:120-138 | The polling pass does, process by process, what its specification says. |
| RunLoop.Run | src/monitor/run_loop.rs:75-166 | For every child list, poll outcome and policy decision: each turn polls everyone followed and their children, each once; no turn follows one after which no policy goes on or the flag is down; whoever is then left is counted and let go of. At return no session, nobody up, no live ring, every start ended; and the sweep for vanished processes never finds one. |
| Ancestry.AcyclicIff | src/list_pids.rs:171-179 | Every climb leaves the list within as many steps as it is long if and only if nobody is its own ancestor. |
| ProcessTree.TerminatesIff | src/list_pids.rs:234-279 | Flattening from a process returns if and only if that process is not its own ancestor. |
| ProcessTree.RootsTerminate | src/list_pids.rs:209-230 | When no listed process has a listed parent of pid 4 or less, flattening returns from every root, for any parent map. |
| ProcessTree.ListingIff | src/list_pids.rs:209-230 | There is a listing if and only if no root is its own ancestor. |
| ProcessTree.ListedPerRoot | src/list_pids.rs:209-230 | It lists each process once for every root at or above it. |
| ProcessTree.CycleUnlisted | src/list_pids.rs:209-230 | A process that is its own ancestor is in no row of it. |
| ProcessTree.OnceIff | src/list_pids.rs:209-230 | There is a listing, with every process in it exactly once, if and only if no process is its own ancestor and none has a listed parent of pid 4 or less. |
| ProcessTree.ListingOrdered | src/list_pids.rs:244-276 | Every row is a root at the left margin or comes after its parent's row, one step further in. |
| ProcessTree.IndentIsDepth | src/list_pids.rs:281-283 | A row's prefix is 4 * (depth + 1) long. |
| ProcessTree.ListingIgnoresOrder | src/list_pids.rs:200-230 | The listing is one and the same whatever order the hash maps walk their entries in. |
| ProcessTree.ListingDrawn | src/list_pids.rs:198-265 | The whole table from the parents alone: one row for every way down from a process at the margin, in order from the top with lower pids first, and in each prefix a bar exactly past those on the way that have a sibling still to come. |
| TreeBuild.ClimbsStopIff | src/list_pids.rs:171-179 | The walk up stops from everywhere if and only if no cycle runs through listed Python processes above pid 4. |
| TreeBuild.ClimbForever | src/list_pids.rs:173-179 | From a process on such a cycle it never stops. |
| TreeBuild.BuildEntries | src/list_pids.rs:149-198 | The entries are the Python processes and, for each, the first known stranger above it. |
| TreeBuild.CompletedMeans | src/list_pids.rs:149-198 | Those are exactly the processes given, each as last given, and every process above pid 4 that the system knows, is not given, and some walk up comes to, with the name and parent the system has for it. |
| TreeBuild.ReturnsIff | src/list_pids.rs:149-232 | The builder returns if and only if no cycle runs through listed Python processes above pid 4 and no root of the completed entries is its own ancestor. |
| TreeBuild.ReturnsEachOnceIff | src/list_pids.rs:149-232 | The builder returns a table with every completed entry in it exactly once if and only if no completed entry is its own ancestor and none has a listed parent of pid 4 or less. |
| TreeBuild.BuildFlatRows | src/list_pids.rs:149-232 | Whenever it returns, the rows are the one listing of the completed entries, whatever order the hash maps walk in. |
| TreeBuild.LoopIsDropped | src/list_pids.rs:173-218 | A Python process whose parent is a stranger that names it as its own parent has no row: the builder returns an empty table. |
| OffsetTable.WindowsApart | src/remote_debugging/offsets/offset_table.rs:182-191 | Entry windows lie inside the buffer, disjoint, in order, clear of every index word, and the region is eight bytes longer than what is decoded. |
| OffsetTable.DecodeGcStats | src/remote_debugging/offsets/offset_table.rs:310-348 | The decoding loops give, for any table and any bytes, the specified Entries, stopping a generation where the bytes run out. |
| OffsetTable.DecodedIff | src/remote_debugging/offsets/offset_table.rs:304-348 | Of any table and any bytes: nothing without geometry, a layout or enough bytes; else exactly one Entry for each position of each generation whose window lies inside them, showing the bytes there. |
| OffsetTable.DecodedInOrder | src/remote_debugging/offsets/offset_table.rs:329-346 | Generations rise, and positions within one, so nothing is decoded twice. |
| OffsetTable.RegionSizeIs | src/remote_debugging/offsets/offset_table.rs:275-289 | The size a process should report, for any table: eight bytes past the last position of a ring, zero for any other kind. |
| OffsetTable.DecodeInverts | gcscope_probe/src/gcscope_probe.c:141-154 | Decoding a region laid out as the writer's structs gives back exactly the items, for any entry size and counts. |
| OffsetTable.RegionHolds | src/remote_debugging/offsets/offset_table.rs:275-302 | The laid-out region has the size the process reports, with each ring at its computed base. |
| OffsetTable.PublishedReadsBack | src/remote_debugging/gc_stats.rs:55-66 | Values written under a layout's names in a region are what the decoded Entry's accessors return. |
| OffsetTable.LayoutInverts | src/tui/tree.rs:243-265 | For eleven young and three old Entries the layout recovered from the size alone has the same entry size and bases. |
| OffsetTable.LayoutFits | src/tui/tree.rs:243-265 | For any other size it is the largest entry size that fits. |
| Bytes.WordRoundTrip | src/remote_debugging/gc_stats.rs:55-66 | A signed word stored little-endian and read back is itself. |
| Bytes.BytesWeigh | src/remote_debugging/gc_stats.rs:55-59 | A word's first byte counts ones and its last the most. |
| GcStats.FromFields | src/remote_debugging/gc_stats.rs:149-163 | An Entry built by name holds, in each field the layout has, the value last named for it, zero otherwise. |
| GcStats.GetReadsHeld | src/remote_debugging/gc_stats.rs:61-66 | Accessors return what an Entry holds, and none for a field the build lacks. |
| GcStats.GetIff | src/remote_debugging/gc_stats.rs:55-66 | Of any bytes under any layout: a name reads as a value if and only if the first field of that name lies inside the Entry and spells it. |
| GcStats.CompleteIff | src/remote_debugging/gc_stats.rs:85-104 | An Entry as long as its layout is finished unless both timestamps are there and the start is not before the stop. |
| TraceEvents.PushPauseEvents | src/monitor/convert.rs:183-302 | The pause loop pushes begin, each sub-step with width, end, and the samples. |
| TraceEvents.ConvertNests | src/monitor/convert.rs:112-136 | Every Record's events close what they open, pair by pair, matched by name, on every track. |
| TraceMeaning.PauseTells | src/monitor/convert.rs:112-302 | The events of a Record with timestamps, one by one: names, category, moments and every argument, each the field of its own name, and each of the eight sub-steps from and to its own fields. |
| TraceMeaning.CountTells | src/monitor/convert.rs:146-172 | And without: one sample of the counts there are, at the moment observed, or nothing. |
| TraceMeaning.TimesRiseIff | src/monitor/convert.rs:220-236 | When the collector's own moments never run backwards, spans open and close at rising times within the pause if and only if no sub-step without a start of its own and with nothing to chain onto is put at the start of the pause over one told before it. |
| TraceMeaning.SparseRunsBack | src/monitor/convert.rs:220-236 | A build that times marking and finalizing and nothing between, told finalizing before marking ended. |
| ChromeTrace.TsUsOrder | src/monitor/exporters/timing.rs:13-15 | Truncating toward zero keeps order and loses less than a microsecond. |
| ChromeTrace.KeptNamedOnce | src/monitor/exporters/chrome.rs:160-170 | No process or track is named twice in what is written. |
| ChromeTrace.KeptNamedFirst | src/monitor/trace_event.rs:51-66 | Dropping repeats keeps every naming before its first use. |
| ChromeTrace.KeptSpans | src/monitor/exporters/chrome.rs:163-170 | Dropping repeats touches no span. |
| ChromeTrace.ClosedReadsBackIff | src/monitor/exporters/chrome.rs:20-36 | The closed file reads back as one JSON array (section 5 of RFC 8259) of exactly the events written, in order, if and only if every name needs no escape and every double printed as a number. |
| ChromeTrace.ChromeTraceExporter.AddEvents | src/monitor/exporters/chrome.rs:147-175 | What the file holds depends on the events given, not on how they were batched. |
| ChromeTrace.ChromeTraceExporter.Close | src/monitor/exporters/chrome.rs:179-191 | Closing an open file completes the array; closing otherwise does nothing. |
| TraceEvents.IntTextSpells | src/monitor/exporters/chrome.rs:43-104 | An integer prints as its digits, a sign in front only below zero and no zero in front of others. |
| ChromeText.EncodeSpells | src/monitor/exporters/chrome.rs:43-104 | Every event as text, key by key in the order the format has always had. |
| ChromeText.FileSpells | src/monitor/exporters/chrome.rs:20-27 | The file character by character: the lines of the events kept, brackets around, commas between. |
| Json.DocumentReads | src/monitor/exporters/chrome.rs:20-27 | A bracketed list of clean objects, one a line, parses back to exactly that list. |
| JsonGrammar.DocumentIsNoJson | src/monitor/trace_event.rs:24-31 | With one number that printed as NaN, inf or -inf anywhere in it, the list is no JSON text: no tree of the whole grammar of RFC 8259 spells it. |
| JsonGrammar.DocumentIsJson | src/monitor/exporters/chrome.rs:20-27 | With every number printed as one, some tree does. |
| JsonGrammar.AcceptedIsJson | src/monitor/exporters/chrome.rs:20-27 | Whatever the model's parser accepts is a text of that grammar. |
| TraceStream.TraceIsOrderly | src/monitor/convert.rs:112-302 | For every run of Records: each process and track is named once and before use, every span is closed and matched on every track, and nothing but repeated names is dropped. |
| TraceStream.TraceIsJsonIff | src/monitor/exporters/chrome.rs:133-192 | For every run of Records the closed file is a JSON text if and only if no Record that bounds its Collection has an infinity or no number for its duration. |
| TraceStream.TraceReadsBackIff | src/monitor/exporters/chrome.rs:133-192 | It then reads back as exactly its events, and otherwise not at all. |
| TraceStream.InfinityIsNoJson | src/monitor/trace_event.rs:24-31 | One finished Collection whose duration field holds an infinity, and the file is no JSON text, whatever else is in it. |
| Summary.Summarize | src/monitor/statistics.rs:92-141 | The single walk computes the grouping. |
| Summary.GroupIsPartition | src/monitor/statistics.rs:92-141 | Concatenating the blocks' rows gives back every observation, in order, under its own process and interpreter. |
| Summary.BlocksAreTidy | src/monitor/statistics.rs:118-131 | No block is empty and none repeats a generation. |
| Summary.BlocksAreSpansIff | src/monitor/statistics.rs:118-138 | Blocks are the observation spans if and only if every span after another of its interpreter opens with a generation that one had. |
| Summary.BlocksAreSpans | src/monitor/statistics.rs:118-138 | So they are whenever every span holds generation 0. |
| Summary.RecycledMerges | src/monitor/statistics.rs:118-138 | A PID polled, dead and polled again, the first process read collecting one generation and the second only another, has both in one block. |
| Summary.RunIsSummarizable | src/monitor/cursor.rs:348-357 | After any run what the cursor lists is sound and strictly ordered by process, interpreter, span and generation. |
| Snapshot.DecodedHas | src/snapshot/collect.rs:389-394 | Of a ring, the positions that started before they stopped are shown, and no others. |
| Snapshot.BucketHolds | src/snapshot/collect.rs:421-433 | A bucket holds what was written of its generation. |
| Snapshot.AverageIsMean | src/snapshot/collect.rs:443-465 | However a ring is rotated, the average is the mean pause of the Collections after the oldest held. |
| Snapshot.RateIsOverWindow | src/snapshot/collect.rs:474-502 | The rate is those Collections over the time from the oldest's start to the newest's stop. |
| Snapshot.NoRiseNoFigure | src/snapshot/collect.rs:455-500 | With no rise from one counter to another both figures are zero, and so is a rate with no time between. |
| Snapshot.TiesGo | src/snapshot/collect.rs:457-461 | Of several Entries with the least counter the first is used, of several with the greatest the last. |
| Snapshot.SnapshotAverage | src/snapshot/collect.rs:389-465 | Of any ring at rest with two Entries or more and Collections that took time, decoded and filtered, that is what the snapshot shows. |
| Snapshot.SnapshotRate | src/snapshot/collect.rs:389-502 | And of the same ring the rate shown is the Collections after the oldest it holds over the seconds from that one's start to the newest's stop. |
| Snapshot.AvgCollectionTimePerGen | src/snapshot/collect.rs:443-465 | The loops compute that average per generation, and none without a duration field. |
| Snapshot.CollectionsRate | src/snapshot/collect.rs:474-502 | The loops compute that rate per generation, and none without timestamps. |
| Snapshot.EntriesByGeneration | src/snapshot/collect.rs:421-433 | Each bucket holds exactly the written entries of its generation, in order. |

## Left out

- Process access: attaching, reading memory, symbol and section lookup, layout caching; all are arbitrary answers here.
- The inside of revalidation: its three outcomes are arbitrary.
- The terminal interface and the table and JSON renderers, which add layout only.
- Command line, signals and sleeping: the running flag is one boolean a turn, and a run is any finite number of turns.
- Floating point: durations, coverage and averages are reals, with one case for a value that is not finite; the drift bound of `Loss.PauseDrift` is where rounding enters. How a finite double prints is a parameter.
- Only `collections` and the counts made of it are bounded to 64 bits; timestamps, pause sums and byte offsets are unbounded integers.
- Weakly ordered stores on aarch64 and copies torn inside a word: the writer's own comments leave the first open, and the copy forward is one store here.
- Where a build keeps its stats region (`gc_stats_region`, `resolve_stats_region`): a case split over three kinds of build, each one addition.
- Heap-size validation, version gates and the capability word of the probe: CPython internals.
- File errors: the exporter ignores a failed write, and here every write succeeds.
- RingWriter.StatsRing.AddStats: the index store and the copy are proved together, not as two method calls; the transition system keeps them apart.
- MonitorExact.SummaryIsTruth: asks for fewer than 2^64 evictions, the tag live rings sort under.
- LosslessRun.RunLosesNothing: one way; what is exact is one poll's bounds, in any order (`Lossless.NeverSkipsIff`) and first to last (`LosslessOrder.NeverSkipsInOrderIff`).
- MonitorLedger.ListedAreSpans: asks for fewer than 2^64 evictions, like the summary.
- Lifecycle.MonitorContext.PollPid: a session is only its presence; what is attached inside it is the operating system's.
- TreeBuild.BuildFlatRows: asks for what `TreeBuild.ReturnsIff` shows to be exactly when the builder returns; name, command line and version columns are not carried.
- OffsetTable.DecodeInverts: an inline build's table is covered by `OffsetTable.DecodedIff` only, its bases being data.
- Json.DocumentReads: the parser accepts a part of RFC 8259 (no escapes, exponents, literals or nested arrays), enough to read everything printed here; the whole language is `JsonGrammar`.
