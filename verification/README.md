# Redundant controller: verified models of its core components

These Dafny modules model nine components of a redundant I/O controller written in C, and prove what each is for.
Every class carries the fields its C structure has, updated by the same branches and loops; its methods are proved
to act as functions on an abstract value, and the properties are theorems about these functions, over all inputs,
all runs and, where threads share state, all interleavings of their critical sections.

| files | component |
|---|---|
| `Common.dfy`, `Modular.dfy` | shared types, and index arithmetic of the ring buffers |
| `CancelTable.dfy`, `Dispatch.dfy`, `DispatchRuns.dfy`, `DispatchProducers.dfy` | the event dispatcher: a ring queue with epochs, a hash table of cancelled requests, and the defer/wake latch |
| `SnapshotShm.dfy` | the lock-free double buffer for UI snapshots in shared memory |
| `IniText.dfy`, `IniParser.dfy`, `IniLines.dfy`, `IniRoundTrip.dfy`, `IniLoaded.dfy`, `IniStore.dfy` | the INI reader, working in place on its line buffer, the store and its printer |
| `UiProto.dfy`, `UiSession.dfy`, `UiProgress.dfy` | framing on the UI socket, and the session with one UI client |
| `LogUiSink.dfy`, `LogUiRuns.dfy` | the log backlog for UI clients and its replay |
| `LogRotation.dfy` | the rotating log file |
| `MgrBus.dfy`, `MgrBusWaits.dfy` | the bus between managers |
| `LogicEngine.dfy`, `OutputMap.dfy` | from input snapshots to values to output cards |
| `RedPolicy.dfy`, `RedEngine.dfy` | the redundancy decision |

How the modules are built:

- Results of system calls, clocks, peers and callbacks are parameters, so a theorem holds for all of them. Mutexes
  become regions: one region is one method call or one step of a run, and a wait on a condition variable is a region
  that ends with `Asleep` or `Wait` and another one that resumes.
- Threads are interleaved by functions over steps (`Next`, `Exec`): the dispatcher with any number of producers,
  awake or asleep, and one consumer, the bus with any number of pops, the snapshot with one writer and readers at
  single memory accesses, the log sink with one writer and one attaching thread.
- Ghost fields hold the history that the fields stand for: accepted nodes, commits, received bytes, logged bytes,
  numbered lines, fed errors and oks.

## What the code does beside what it is meant to do

Each of these has a lemma with the exact condition, or with an input where the second name in parentheses says so:

- Two flushes between a peek and its commit can make the commit drop a node nobody has seen: the result of the commit
  is ignored, and cells repeat (`CommitRemovesThePeekedNode`, input in `TwoFlushesLoseANode`).
- A wait with a finite limit does not look at the wake latch before it sleeps (`PendingWakeupNeedsUnlimitedWait`).
- A flush between a peek and its DEFER leaves the defer flag to nodes it is not about
  (`DeferBelongsToTheHead`, input in `StaleDeferHoldsUpTheNext`).
- The table of cancelled requests never forgets an id before it overflows, so it overflows once more different ids
  than it has slots have been cancelled, however often everything is cancelled (`OverflowNeedsTooManyIds`).
- A store comes back from its text exactly if it is well formed (`SaveThenLoad`); an empty key is no obstacle, a newline
  in a field is one (inputs in `ForgedItemReturns`, `BrokenValueIsAFault`). A loaded store need not come back either
  (`LoadThenSave`, input in `EmptyHeaderUnsettles`). A key or section longer than its field is stored cut off and never
  matches again (`SetThenLookup`).
- A chunk that does not fit beside an unfinished frame is refused, though the stream is good
  (`ChunkingDoesNotMatter`, input in `LongerChunksMayNotFit`); the receive loops read too little at a time for that
  (`SmallChunksAreRoomy`).
- A send that fails after part of its frame spoils all that is sent later on the connection (`StreamStaysWhole`); the
  session keeps a client whose ping was cut short by -EAGAIN.
- A ping that is due moves the pong deadline before the deadline is looked at (`OverdueOnlyWithoutPing`,
  `PongTimeoutStrikes`), so the pong timeout never strikes if pings are at least as frequent
  (`FrequentPingsDisableThePongTimeout`). A pong timeout of 0 means 5000 ms in `src/mgr/ui/ui_mgr.c:161-172`, while
  `inc/mgr/ui/ui_mgr.h:47` says that it disables the timeout; the model follows the code.
- Frames that arrive in one chunk with the HELLO stay in the buffer until more bytes come (`FramesBehindHelloWait`,
  `TheyWaitForData`, input in `PongBehindHelloWaits`).
- The events of a client that is replaced during a poll are applied to its successor (`HangupHitsTheSuccessor`).
- New log lines may reach a client before older ones of its replay (`OrderUnlessOvertaken`, input in
  `NewLinesMayOvertakeTheReplay`).
- A send to a former client that fails fatally after a new one has attached unsubscribes the new one
  (`OtherSendFails`).
- A rotation without a current file leaves a gap in the numbers (`RotateWithoutCurrentFile`), opening an open log file
  loses the bytes buffered (`OpenKeepsHistory`), and the size that decides about rotating can lose them too
  (`SizeStaysExact`).
- The wake flag of the bus is never cleared (`NothingDeliveredAfterWakeup`).

## Model

| member | source | states |
|---|---|---|
| `CancelTable.LookupIsMapLookup` | src/util/dispatch/dispatch.c:247-266 | for every hash function, probing reports an id exactly if it is non-zero and the map the table stands for holds it with the active epoch |
| `CancelTable.OverflowIsFullMap` | src/util/dispatch/dispatch.c:281-290 | an insertion finds no slot exactly if the id is new and the map already has as many entries as the table has slots |
| `CancelTable.InsertedIds` | src/util/dispatch/dispatch.c:273-309 | an insertion adds its id to the ids in the table and removes none, unless it overflows |
| `CancelTable.InsertionIsMapUpdate` | src/util/dispatch/dispatch.c:273-309 | every insertion keeps each id in one slot with no hole in its probing chain, and changes the map as promised: plain update; on overflow nothing, eviction of the home slot's entry only, or only the new id |
| `CancelTable.TracksInsert` | src/util/dispatch/dispatch.c:877-886 | cancelling an id keeps the table in step with the set of ids cancelled since the last cancel-all, exactly so as long as nothing has overflowed |
| `CancelTable.TracksCancelAll` | src/util/dispatch/dispatch.c:906-917 | raising the epoch empties the set of cancelled ids without touching the table, and makes it exact again |
| `CancelTable.TracksReports` | src/util/dispatch/dispatch.c:247-266 | only ids cancelled since the last cancel-all are reported; if no insertion has overflowed, every non-zero one of them is |
| `CancelTable.IsCancelled` | src/util/dispatch/dispatch.c:247-266 | the probing loop computes the lookup that the lemmas speak of |
| `CancelTable.Insert` | src/util/dispatch/dispatch.c:273-309 | the probing loop and the overflow policies, in place, make the insertion the lemmas speak of; it fails exactly on overflow under the ignore-new policy |
| `Dispatch.Dispatcher.constructor` | src/util/dispatch/dispatch.c:370-446 | an empty ring, an empty table (128 slots if none are asked for), epoch and wake counters at 1 |
| `Dispatch.Dispatcher.Used` | src/util/dispatch/dispatch.c:174-180 | the number computed from head and tail is the length of the queue |
| `Dispatch.Dispatcher.IsFull` | src/util/dispatch/dispatch.c:193-200 | full means that the queue holds one node less than the ring has cells |
| `Dispatch.Dispatcher.Push` | src/util/dispatch/dispatch.c:453-481 | the ring afterwards holds the accepted nodes that have not left it, the new one last with the active epoch; a full ring drops the event or makes the producer wait |
| `Dispatch.Dispatcher.PopBegin` | src/util/dispatch/dispatch.c:647-654 | the peek yields the oldest node, its cell, the active epoch, and whether node or request is cancelled |
| `Dispatch.Dispatcher.Commit` | src/util/dispatch/dispatch.c:225-241 | removes the oldest node exactly if it sits in the peeked cell, and clears the defer flag |
| `Dispatch.Dispatcher.PopEnd` | src/util/dispatch/dispatch.c:656-795 | the whole second part of a pop: which result it reports, in the order of its checks, and the state it leaves |
| `Dispatch.Dispatcher.CancelReq` | src/util/dispatch/dispatch.c:869-886 | records a non-zero id under the active epoch and changes nothing else |
| `Dispatch.Dispatcher.CancelAll` | src/util/dispatch/dispatch.c:906-917 | raises the epoch; a flush empties the ring and clears the defer flag |
| `Dispatch.Dispatcher.Wakeup` | src/util/dispatch/dispatch.c:799-808 | advances the wake counter only |
| `Dispatch.Dispatcher.WaitRound` | src/util/dispatch/dispatch.c:513-617 | one round of the wait loop from its top until it returns or goes to sleep |
| `Dispatch.Dispatcher.WaitResume` | src/util/dispatch/dispatch.c:529-614 | what the wait does when it wakes up, signalled or timed out |
| `DispatchRuns.StepKeepsInv` | src/util/dispatch/dispatch.c:453-925 | every critical section of every thread keeps the invariant: epochs in the queue never decrease and never exceed the active one, settled nodes come in order, the table tracks cancellations, a sleeping consumer has something to wait for |
| `DispatchRuns.RunKeepsInv` | src/util/dispatch/dispatch.c:453-925 | so does every interleaving of any number of producers, cancellers and wakers with one consumer |
| `DispatchRuns.EveryNodeIsAccountedFor` | src/util/dispatch/dispatch.c:629-795 | over every run, accepted nodes are those that left the ring followed by its contents; no node gets two results other than DEFER; what left without a flush was committed by a finished pop, by its own one if no window held two flushes |
| `DispatchRuns.CommitRemovesThePeekedNode` | src/util/dispatch/dispatch.c:225-241 | the commit removes exactly the peeked node if and only if no flush came since the peek; after one flush it removes nothing; after more, exactly when the head is in the peeked cell again, a node nobody peeked |
| `DispatchRuns.TwoFlushesLoseANode` | src/util/dispatch/dispatch.c:785-786 | a run in which two flushes inside one peek-commit window make the commit drop a node that never gets a result |
| `DispatchRuns.DeferBelongsToTheHead` | src/util/dispatch/dispatch.c:740-760 | over every run, a raised defer flag stems from the last result, and belongs to the head of the queue exactly if no flush fell between the peek of that node and its DEFER; otherwise that node was flushed |
| `DispatchRuns.StaleDeferHoldsUpTheNext` | src/util/dispatch/dispatch.c:740-760 | a run after which the consumer sleeps without limit on nodes it has never peeked, and goes on sleeping when another one is pushed |
| `DispatchRuns.CancelAllIsFinal` | src/util/dispatch/dispatch.c:647-674 | whatever happens afterwards, flushed or not, a pop whose peek comes after a cancel-all reports DROP_EPOCH for every node accepted before it |
| `DispatchRuns.PopReportsCancelledRequests` | src/util/dispatch/dispatch.c:676-689 | a pop drops a current node for its request only if that was cancelled since the last cancel-all, and always does if no insertion has overflowed |
| `DispatchRuns.OverflowNeedsTooManyIds` | src/util/dispatch/dispatch.c:273-309 | over every run from the start, some insertion overflows exactly if the run asks to cancel more different ids than the table has slots, cancel-alls notwithstanding; up to that number all reports are exact |
| `DispatchRuns.NoLostWakeup` | src/util/dispatch/dispatch.c:569-586 | after an indefinite DEFER, for every run of the other threads' steps, the beginning of a wait without limit and rounds of that wait, in any order, that holds a wakeup, with the queue non-empty at its end: either a wait has returned 1 already, or the consumer is not asleep unsignalled and its next round returns 1 with the defer flag clear |
| `DispatchRuns.LatchStays` | src/util/dispatch/dispatch.c:569-586 | the latch survives all these steps, rounds of the wait included, and once a wakeup is among them the consumer owes nobody: no wait can put it to sleep unsignalled while there is a node |
| `DispatchRuns.DeferStoresTheSnapshot` | src/util/dispatch/dispatch.c:747-756 | an indefinite DEFER keeps its node and arms the latch, whatever comes next |
| `DispatchRuns.WaitReturnsUndeferred` | src/util/dispatch/dispatch.c:543-623 | every return of 1 leaves the defer flag clear, and a wait without limit never returns 0 |
| `DispatchRuns.RoundMeans` | src/util/dispatch/dispatch.c:513-617 | every round of every wait: it returns 0 exactly at its deadline or after a sleep that lasted until then, 1 exactly if it was woken from a DEFER or there is a node that no DEFER holds back, and otherwise sleeps, no longer than the deadline or a timed DEFER allows |
| `DispatchRuns.WaitBegins` | src/util/dispatch/dispatch.c:498-512 | the deadline is the beginning of the wait plus its limit, at most the largest time |
| `DispatchRuns.SleeperHasAReason` | src/util/dispatch/dispatch.c:513-617 | over every run and for every limit: a consumer asleep and not signalled has an empty queue or a raised defer flag |
| `DispatchRuns.TimedDeferEnds` | src/util/dispatch/dispatch.c:557-568 | a DEFER for w milliseconds at time t ends at t + w: whatever the other threads do short of a flush, no wait of any limit returns 1 before, and from then on a round that finds a node does, with the flag clear |
| `DispatchRuns.PopMeans` | src/util/dispatch/dispatch.c:656-795 | each pop result in terms of the peeked node's epoch, cancellation and event and the policy's decision; the defer flag is up afterwards exactly for DEFER |
| `DispatchRuns.PendingWakeupNeedsUnlimitedWait` | src/util/dispatch/dispatch.c:567-613 | a wakeup between the DEFER and the wait is honoured at once exactly if the wait has no limit |
| `DispatchProducers.NoProducerSleepsBesideRoom` | src/util/dispatch/dispatch.c:453-481 | over every run with any number of producers: while one sleeps, at least as many others have been woken as there are free cells, so when these have run the ring is full or nobody sleeps; every push has been accepted, dropped (in drop mode only) or waits (otherwise only) |
| `DispatchProducers.RunsAreRuns` | src/util/dispatch/dispatch.c:453-481 | sleeping producers included, the dispatcher goes through one of the runs of the other theorems |
| `SnapshotShm.ActKeepsInv` | src/ra/ui/ra_ui_shm.c:150-157 | every single access of a commit keeps the invariant: sequence number, index and both buffers agree with the history of commits |
| `SnapshotShm.AcceptedRoundIsWhole` | src/ra/ui/ra_ui_shm.c:178-183 | a round that reads the same sequence number s twice, with fewer than 2^32 commits finishing meanwhile, holds one whole payload, commit s or s + 1 |
| `SnapshotShm.NoTornRead` | src/ra/ui/ra_ui_shm.c:178-183 | the same for every interleaving: the reader's accesses at any positions, words in any order, of any sequence of writer steps |
| `SnapshotShm.RepeatedRoundSawACommit` | src/ra/ui/ra_ui_shm.c:183 | a round is repeated only if a commit finished while it ran |
| `SnapshotShm.RetriesAreCommits` | src/ra/ui/ra_ui_shm.c:178-183 | a read repeats its round at most as often as commits finish during it |
| `SnapshotShm.ReadsNeverGoBack` | src/ra/ui/ra_ui_shm.c:178-183 | of any two among successive reads with their retry loops, the earlier returns some commit i and the other some commit j with i <= j, and i >= n if n commits had finished before it began; fewer than 2^32 commits finish during the last round of each read |
| `SnapshotShm.Region.Perform` | src/ra/ui/ra_ui_shm.c:150-157 | each access of the writer, in place, has the effect the interleavings are made of |
| `SnapshotShm.Region.CommitSnapshot` | src/ra/ui/ra_ui_shm.c:140-160 | an undisturbed commit puts the payload into the other buffer, keeps the old one, switches the index and advances the sequence number modulo 2^32 |
| `SnapshotShm.Region.ReadSnapshot` | src/ra/ui/ra_ui_shm.c:167-190 | the retry loop, with the writer running before each access, ends with the copy of its last round, whose two sequence numbers are equal; with fewer than 2^32 commits during the read, that copy is commit s or s + 1, s being the number of commits finished when the round began |
| `IniRoundTrip.SaveThenLoad` | src/util/ini.c:448-463 | for every store of at most 128 C strings within the field sizes: loading the saved text into a zeroed store gives status 0 and the same items in the same order exactly if the store is well formed, which includes that no field holds a newline |
| `IniRoundTrip.TextIsTidy` | src/util/ini.c:98-267 | whatever the text, every item read fits its fields, holds no newline or inline comment, no ']' in its section, no separator in its key, nothing that would make the key another kind of line, and no white space before key or value |
| `IniLoaded.LoadThenSave` | src/util/ini.c:98-267 | whatever text a store was loaded from, saving and loading it again gives the same items exactly if no key or value has been cut off behind white space, no item without a section follows one with a section, and the text saved does not begin with a byte-order mark |
| `IniLoaded.EmptyHeaderUnsettles` | src/util/ini.c:201-219 | such a text: an empty header ends a section, but no saved text holds one |
| `IniLoaded.NewlineForgesAnItem` | src/util/ini.c:448-463 | a value with a newline, a key and a separator is saved as the same text as two items |
| `IniLoaded.ForgedItemReturns` | src/util/ini.c:448-463 | so it is loaded as two items with status 0 |
| `IniLoaded.BrokenValueIsAFault` | src/util/ini.c:448-463 | a value whose second line has no separator is loaded with status 2 |
| `IniRoundTrip.StoreSurvives` | src/util/ini.c:98-267 | the same for the rest of a store behind any text already read without a fault |
| `IniRoundTrip.ItemSurvives` | src/util/ini.c:98-267 | the same for one item, with its header line if needed |
| `IniRoundTrip.PairIsStored` | src/util/ini.c:182-253 | a pair line is read back exactly if key and value are trimmed and free of inline comments, the key holds no separator and starts like no other kind of line, and no byte-order mark stands at the start of the text |
| `IniRoundTrip.HeaderLine` | src/util/ini.c:201-219 | a header line makes its section current exactly if the section holds no ']' or inline comment; otherwise it is a fault or shortens the section |
| `IniRoundTrip.NameSurvives` | src/util/ini.c:222-225 | the name found before the first separator is the key exactly if the key is right-trimmed and free of separators and inline comments |
| `IniRoundTrip.ValueSurvives` | src/util/ini.c:226-233 | the value found behind the separator is the saved value exactly if that is trimmed and free of inline comments |
| `IniRoundTrip.LineByLine` | src/util/ini.c:139-172 | a line that fits the buffer is read on its own, cut at its first NUL, and parsing goes on behind it |
| `IniLines.PairLineMeans` | src/util/ini.c:182-253 | a pair with any white space around name and value, either separator and a comment behind it adds this name and value to the current section, or is a fault in a full store |
| `IniLines.ContinuationMeans` | src/util/ini.c:186-199 | an indented line behind a pair adds one more item with the same key, with its text up to a comment as the value |
| `IniLines.SectionLineMeans` | src/util/ini.c:201-219 | a section line sets the section, whatever follows the bracket |
| `IniLines.OpenSectionIsAFault` | src/util/ini.c:213-217 | without a bracket it is a fault |
| `IniLines.CommentsMeanNothing` | src/util/ini.c:183-185 | blank lines and comments change nothing |
| `IniLines.BomMeansNothing` | src/util/ini.c:174-181 | a byte-order mark at the start of the text is skipped |
| `IniLines.LongLine` | src/util/ini.c:139-172 | a line of more than 198 characters is a fault; its first 199 are parsed and the rest is swallowed up to its newline |
| `IniLines.LastLine` | src/util/ini.c:139-172 | the last line needs no newline |
| `IniParser.RStripLine` | src/util/ini.c:49-55 | overwriting trailing white space by terminators leaves the right-stripped string, and no other cell changed |
| `IniParser.LSkip` | src/util/ini.c:58-63 | skips exactly the leading white space |
| `IniParser.FindCharsOrComment` | src/util/ini.c:68-83 | finds the first of the characters or inline comment, or the end |
| `IniParser.IniParser.ParsePair` | src/util/ini.c:220-253 | in-place cutting and stripping of a pair line has the effect of the function on its text |
| `IniParser.IniParser.ParseSection` | src/util/ini.c:201-219 | the same for a section line |
| `IniParser.IniParser.ParseTrimmed` | src/util/ini.c:184-254 | the same for the choice between comment, continuation, section and pair |
| `IniParser.IniParser.ParseBuffer` | src/util/ini.c:174-254 | the same for the byte-order mark and the stripping of the whole line |
| `IniParser.IniParser.GetLine` | src/util/ini.c:291-314 | the string reader takes up to the newline or the size given and closes the string, which a NUL in the text ends earlier |
| `IniParser.IniParser.DiscardRest` | src/util/ini.c:164-172 | the rest of an overlong line is swallowed up to the piece whose string ends with its newline, and is a fault |
| `IniParser.IniParser.ParseStream` | src/util/ini.c:98-267 | for every text on which the source is defined, NULs included, the whole loop over lines parses it as the function does and returns the first faulty line |
| `IniStore.IndexIsFirst` | src/util/ini.c:356-364 | the index found is the first item with that section and key |
| `IniStore.SetThenLookup` | src/util/ini.c:356-427 | setting fails only for a new pair on a full store; a value that has been set is looked up again, cut to its field, exactly if section and key are within their fields or were there before; no other pair is affected then |
| `IniStore.IniStore.Lookup` | src/util/ini.c:356-364 | the search loop finds the value of the first match |
| `IniStore.IniStore.SetString` | src/util/ini.c:414-427 | the update loop overwrites the first match or appends, and fails on a full store |
| `IniStore.IniStore.Save` | src/util/ini.c:448-463 | the loop writes a header whenever the section changes to a non-empty one, and one line per item |
| `IniStore.IniStore.Load` | src/util/ini.c:337-353 | for every such text the items become those parsed from it, the result the first faulty line |
| `IniStore.NulFreeIsReadable` | src/util/ini.c:164-172 | every text without NULs is one of them: the source is undefined only where a swallowed piece of an overlong line begins with a NUL |
| `IniStore.Transfer` | src/util/ini.c:448-463 | one store saves and another loads: status 0 and equal contents exactly for well-formed stores |
| `UiProto.ValidateHdr` | src/mgr/ui/ui_proto.c:72-108 | 0 exactly for the right magic and version, a known kind and a length within the limit; a wrong magic, version or kind takes precedence over the length |
| `UiProto.HdrRoundTrip` | src/mgr/ui/ui_proto.c:146-165 | the 20 header bytes give back all header fields, whatever follows |
| `UiProto.HdrLayout` | inc/mgr/ui/ui_proto.h:27-35 | each header field is at its offset, least significant byte first |
| `UiProto.DecodeResumes` | src/mgr/ui/ui_proto.c:146-193 | decoding a stream is decoding a part of it and then the unconsumed bytes with the rest |
| `UiProto.ChunkingDoesNotMatter` | src/mgr/ui/ui_proto.c:126-193 | for every chunking, appending and draining gives the frames, the error and the unconsumed bytes of decoding the stream at once exactly if, as long as no header was bad, each chunk fits beside the bytes not consumed before it; otherwise -ENOSPC, after a prefix of the frames |
| `UiProto.SmallChunksAreRoomy` | src/mgr/ui/ui_proto.c:126-141 | chunks of at most 3053 bytes always fit, whatever the stream; the receive loops use 512 |
| `UiProto.LongerChunksMayNotFit` | src/mgr/ui/ui_proto.c:126-141 | 3053 is the best such bound: with one more byte a stream that decodes to a frame is refused |
| `UiProto.DecodeLeavesLittle` | src/mgr/ui/ui_proto.c:150-176 | at most 1043 bytes stay unconsumed |
| `UiProto.DecodeLosesNothing` | src/mgr/ui/ui_proto.c:146-193 | decoding without a fault loses nothing: the bytes are those of the frames followed by the unconsumed ones |
| `UiProto.RawDecodes` | src/mgr/ui/ui_proto.c:146-193 | conversely, the bytes of valid frames followed by anything decode to these frames first |
| `UiProto.WholeFrameFits` | src/mgr/ui/ui_proto.c:146-193 | a whole frame is taken out exactly if its payload fits the space given |
| `UiProto.SendAllWire` | src/mgr/ui/ui_proto.c:38-67 | success puts exactly the data on the wire, anything else a proper prefix, for any results of write |
| `UiProto.SendAllMeans` | src/mgr/ui/ui_proto.c:38-67 | the loop succeeds exactly if the results of write take all the data before one that ends it; otherwise it returns the error of that one |
| `UiProto.SendFrameWire` | src/mgr/ui/ui_proto.c:202-243 | a send that succeeds puts header and payload on the wire, a refused one nothing, any other a proper prefix |
| `UiProto.SendFrameMeans` | src/mgr/ui/ui_proto.c:202-243 | a frame of a known kind and size is sent if each write takes a byte or is interrupted; others are refused, for their length first |
| `UiProto.WireDecodesToSentFrames` | src/mgr/ui/ui_proto.c:202-243 | after any number of sends up to the first that fails, the wire decodes to exactly the successful frames without an error |
| `UiProto.StreamStaysWhole` | src/mgr/ui/ui_proto.c:38-243 | if sending goes on after failures, as the pings do, the wire still decodes to exactly the successful frames with nothing left over if and only if no failed send has put a part of its frame on the wire |
| `UiProto.ReceiverGetsWhatWasSent` | src/mgr/ui/ui_proto.c:146-243 | whatever partial writes happen on one side: the receiver gets all frames sent exactly if the chunks fit as above, and in any case only frames sent, in order, all fields and payloads unchanged |
| `UiProto.WriteAll` | src/mgr/ui/ui_proto.c:38-67 | the loop over partial writes and interruptions sends as the function does |
| `UiProto.WriteFrame` | src/mgr/ui/ui_proto.c:202-243 | header and payload, one after the other; success means that the whole frame is on the wire |
| `UiProto.RxBuf.Append` | src/mgr/ui/ui_proto.c:126-141 | appends if it fits, else refuses and changes nothing |
| `UiProto.RxBuf.MoveLeft` | src/mgr/ui/ui_proto.c:13-31 | moves what follows the first bytes to the front |
| `UiProto.RxBuf.TryParse` | src/mgr/ui/ui_proto.c:146-193 | takes a whole frame out of the buffer; empties it on a bad header; otherwise leaves it |
| `UiProto.RxBuf.Drain` | src/mgr/ui/ui_mgr.c:643-678 | taking frames out one by one decodes the whole buffer |
| `UiProto.RxBuf.Receive` | src/mgr/ui/ui_mgr.c:637-678 | one append and the draining behind it are one round of the receive loop that chunking speaks of |
| `UiSession.EveryRun` | src/mgr/ui/ui_mgr.c:328-1076 | in every run of start, poll and stop: a descriptor is held exactly in HANDSHAKE and CONNECTED, a pong is awaited only in CONNECTED, CONNECTED means that the first frame of this connection was a HELLO of exact size and its number was passed to the attach callback, no frame has been handled in HANDSHAKE, the frames handled are the first ones that decoding all received bytes gives, at most 1043 bytes are held, and two attaches have the detach of the first one's descriptor in between |
| `UiSession.RunKeepsOk` | src/mgr/ui/ui_mgr.c:986-1076 | the invariant behind it is kept by every run from any state that meets it |
| `UiSession.GreetingOk` | src/mgr/ui/ui_mgr.c:564-589 | in the handshake the buffer holds at most 1043 bytes before each append and no payload exceeds its space; a HELLO completes it, anything else leaves it incomplete or fails |
| `UiSession.TalkingOk` | src/mgr/ui/ui_mgr.c:634-678 | the same while connected: appending never runs out of space whatever the peer sends, and the frames handled stay those of the bytes received |
| `UiSession.FramesBehindHelloWait` | src/mgr/ui/ui_mgr.c:525-591 | a HELLO completes the handshake with one frame handled; whole frames then stay unhandled in the buffer exactly if the bytes received so far decode to more than one frame |
| `UiSession.TheyWaitForData` | src/mgr/ui/ui_mgr.c:597-680 | receives without data leave them there, and the next chunk, whatever it holds, has them handled first |
| `UiSession.PongBehindHelloWaits` | src/mgr/ui/ui_mgr.c:525-591 | an input: a HELLO and a PONG in one chunk leave the client connected with the PONG unhandled |
| `UiSession.OnlyPolicyDisplaces` | src/mgr/ui/ui_mgr.c:457-517 | a new connection displaces the client exactly if it passes the credential check, the policy is not to reject, and the client is stale where the policy asks for that; the client is detached first |
| `UiSession.RefusalLeavesNoTrace` | src/mgr/ui/ui_mgr.c:457-517 | with a client there, a connection turned down by the credential check or the policy changes nothing in the whole poll: it goes as if nobody had connected |
| `UiSession.HangupHitsTheSuccessor` | src/mgr/ui/ui_mgr.c:1025-1066 | a client that replaces another during a poll, with nothing received yet, is still there after the events of that poll exactly if the old one's descriptor reported no hangup |
| `UiSession.HangupLeavesNobody` | src/mgr/ui/ui_mgr.c:1025-1066 | whatever is received and whoever connects in that poll, after a hangup of the client it started with there is none |
| `UiSession.QuietPollDrops` | src/mgr/ui/ui_mgr.c:688-776 | exactly when a poll without events drops the client: handshake timeout, staleness, an overdue pong with no ping due, or a due ping failing for good |
| `UiSession.FrequentPingsDisableThePongTimeout` | src/mgr/ui/ui_mgr.c:710-765 | if pings are at least as frequent as the pong timeout, no poll of any run ever finds a pong overdue, however long the client is silent: a due ping moves the deadline before it is looked at |
| `UiSession.OverdueOnlyWithoutPing` | src/mgr/ui/ui_mgr.c:710-765 | in one poll, a pong is found overdue exactly if it was overdue before and no ping is due |
| `UiSession.PongTimeoutStrikes` | src/mgr/ui/ui_mgr.c:688-776 | after a quiet poll that sends a ping at t, the next one finds the pong overdue exactly if it comes at or after t + pong timeout and before t + ping interval; the client is then dropped |
| `UiProgress.NewClientIsHeld` | src/mgr/ui/ui_mgr.c:457-517 | a trusted connection while there is no client is held, and its handshake begins in the same poll |
| `UiProgress.SilentClientIsHeld` | src/mgr/ui/ui_mgr.c:457-517 | after every run that leaves the session listening without a client: such a connection that sends nothing yet is in HANDSHAKE after the poll, unless the poll takes longer than a handshake may |
| `UiProgress.HelloConnects` | src/mgr/ui/ui_mgr.c:381-591 | and one whose first bytes are a HELLO is attached in that poll with the callback Attach(fd, n), n being the number of its eight bytes, least significant first; it is CONNECTED afterwards unless a ping fails for good or the poll takes longer than a client may be silent |
| `UiProgress.FailedTakeover` | src/mgr/ui/ui_mgr.c:457-517 | a connection that cannot be taken over leaves no trace if nobody was there; if it may displace a client, that client is detached all the same |
| `UiProgress.HandshakePollMeans` | src/mgr/ui/ui_mgr.c:525-591 | a later poll that finds the handshaking client readable: incomplete frames wait, a HELLO attaches, anything else lets the client go |
| `UiProgress.ChunksAreHandled` | src/mgr/ui/ui_mgr.c:597-680 | whatever the chunks a connected client sends, the frames they complete are handled in order and once each, and the rest is kept |
| `UiProgress.PongEndsTheAwait` | src/mgr/ui/ui_mgr.c:645-665 | a PONG among them ends the await, unless the same poll sends a ping |
| `UiProgress.EndDropsTheClient` | src/mgr/ui/ui_mgr.c:605-660 | the end of the stream, an error and a bad header each end the session with Detach |
| `UiProgress.QuietPollMeans` | src/mgr/ui/ui_mgr.c:688-776 | what a quiet poll changes: a ping that is due awaits a pong until its time plus the timeout, and counts as activity if sent |
| `UiProgress.BackwardClockDrops` | src/mgr/ui/ui_mgr.c:756-776 | a clock that has run backwards makes the client look stale, since differences are unsigned |
| `UiProgress.StartAndStop` | src/mgr/ui/ui_mgr.c:945-972 | starting listens unless that fails; stopping detaches the client, if there is one, and nothing listens any more |
| `UiProgress.CallsReturn` | src/mgr/ui/ui_mgr.c:945-1076 | opening and polling return an error exactly for a failing system call or a stopped session; an interrupted or failed poll changes nothing |
| `UiProgress.NothingAfterStop` | src/mgr/ui/ui_mgr.c:986-1000 | after that every poll is refused |
| `UiSession.UiMgr.DropUi` | src/mgr/ui/ui_mgr.c:328-351 | the whole state after dropping: detached, no descriptor, all marks cleared, idle |
| `UiSession.UiMgr.AttachBegin` | src/mgr/ui/ui_mgr.c:357-375 | the whole state at the beginning of a handshake, with an empty buffer |
| `UiSession.UiMgr.FinishAttach` | src/mgr/ui/ui_mgr.c:381-403 | connected if the attach callback accepts, dropped otherwise |
| `UiSession.UiMgr.TakeHello` | src/mgr/ui/ui_mgr.c:564-589 | a chunk in the handshake; the branches for a full buffer and a too large payload are dead |
| `UiSession.UiMgr.RxHandshake` | src/mgr/ui/ui_mgr.c:525-591 | the receive loop of the handshake, for any results of recv |
| `UiSession.UiMgr.TakeFrames` | src/mgr/ui/ui_mgr.c:632-678 | a chunk while connected, frame by frame; the branches for a full buffer and a too large payload are dead |
| `UiSession.UiMgr.HandleUiRx` | src/mgr/ui/ui_mgr.c:597-680 | the receive loop while connected, for any results of recv; the invariant holds afterwards |
| `UiSession.UiMgr.HandleAccept` | src/mgr/ui/ui_mgr.c:457-517 | the state after an accept under every policy; the invariant holds afterwards |
| `UiSession.UiMgr.MaybePing` | src/mgr/ui/ui_mgr.c:688-750 | when a ping is due, and the state after each outcome of sending it |
| `UiSession.UiMgr.HandleStale` | src/mgr/ui/ui_mgr.c:756-776 | the three timeouts in their order |
| `UiSession.UiMgr.Poll` | src/mgr/ui/ui_mgr.c:986-1076 | a whole poll has the effect of the function that runs are made of, and keeps the invariant |
| `UiSession.UiMgr.Open` | src/mgr/ui/ui_mgr.c:945-957 | listening, and idle if it had not been started; an error changes nothing |
| `UiSession.UiMgr.Close` | src/mgr/ui/ui_mgr.c:962-972 | no client, not listening, shut down |
| `LogUiSink.UiSink.Push` | src/util/log/internal/log_sink_ui.c:113-138 | the cells hold the newest lines with their numbers, as many as there are slots |
| `LogUiSink.UiSink.OldestIdx` | src/util/log/internal/log_sink_ui.c:143-158 | the cell of the oldest line kept |
| `LogUiSink.UiSink.CopyBacklog` | src/util/log/internal/log_sink_ui.c:424-445 | the copy loop yields every line kept, oldest first, with its number and its text up to a NUL |
| `LogUiSink.UiSink.WriteBegin` | src/util/log/internal/log_sink_ui.c:230-274 | clipping, the no-subscriber policy, storing, and what is then to be sent to whom |
| `LogUiSink.UiSink.WriteEnd` | src/util/log/internal/log_sink_ui.c:285-304 | a send error is counted; a fatal one forgets the client |
| `LogUiSink.UiSink.AttachBegin` | src/util/log/internal/log_sink_ui.c:415-446 | the new client is registered and the backlog copied in one critical section |
| `LogUiSink.UiSink.Replay` | src/util/log/internal/log_sink_ui.c:449-491 | the replay loop sends the unseen lines with any text, in order, up to the first that fails, and handles that failure |
| `LogUiRuns.AttachedClientMissesNothing` | src/util/log/internal/log_sink_ui.c:230-491 | for every interleaving of a writer with an attach on a fresh descriptor, if the copy and the sends to the new client succeed and no send to another one fails fatally: once both are done the client has got, once each and in order, every unseen line of the backlog that has text, and what fits of every buffer written since |
| `LogUiRuns.LinesAreWrites` | src/util/log/internal/log_sink_ui.c:230-262 | over every run, the lines stored are, in order, the buffers written while there was a subscriber or the policy kept lines without one, each its longest prefix of at most line_max - 1 bytes, empty ones left out |
| `LogUiRuns.WriteMeans` | src/util/log/internal/log_sink_ui.c:230-304 | what a write counts, and what it sends to whom: the line up to its first NUL with the line's number, exactly if notification is on and a client is subscribed |
| `LogUiRuns.StepCounts` | src/util/log/internal/log_sink_ui.c:206-222 | an attach takes the subscription over, a detach or a send that finds the client gone ends it, and each failure is counted |
| `LogUiRuns.StepSends` | src/util/log/internal/log_sink_ui.c:281-304 | what reaches the wire: the message of the write under way, and the lines of the replay from the first on, which a failure ends |
| `LogUiRuns.ReplayIsRun` | src/util/log/internal/log_sink_ui.c:449-491 | the replay loop of the sink runs these steps |
| `LogUiRuns.NoReplay` | src/util/log/internal/log_sink_ui.c:415-448 | there is no replay without notification or after a failed copy |
| `LogUiRuns.OtherSendFails` | src/util/log/internal/log_sink_ui.c:285-304 | a send to another descriptor that ends after the attach leaves the new client served exactly if it does not fail fatally; if it does, the next line is sent to nobody |
| `LogUiRuns.NoLineIsSkipped` | src/util/log/internal/log_sink_ui.c:449-470 | if no line begins with a NUL, the replay is every line numbered above max(last seen, lines lost by overwriting) |
| `LogUiRuns.RunKeepsServing` | src/util/log/internal/log_sink_ui.c:230-491 | throughout, received and still-to-be-sent lines make up the whole replay and all lines stored since |
| `LogUiRuns.OrderUnlessOvertaken` | src/util/log/internal/log_sink_ui.c:446-491 | the client gets its lines with increasing numbers exactly if no newer line is sent to it while its replay has lines left |
| `LogUiRuns.NewLinesMayOvertakeTheReplay` | src/util/log/internal/log_sink_ui.c:446-470 | a run in which a new line arrives before an old one |
| `LogRotation.ShiftEffect` | src/util/log/internal/log_sink_file.c:174-189 | for every file system: number j becomes the former number j - 1, the last one keeps its content if nothing replaces it, number 1 becomes free, nothing else changes |
| `LogRotation.RotateKeepsHistory` | src/util/log/internal/log_sink_file.c:222-313 | a rotation with a current file makes that file, buffered bytes included, the newest segment and keeps the newest ones as files |
| `LogRotation.RotateWithoutCurrentFile` | src/util/log/internal/log_sink_file.c:236-260 | a rotation without one reports -1, and keeps the order of segments exactly if there are none or only one file is kept |
| `LogRotation.WriteKeepsHistory` | src/util/log/internal/log_sink_file.c:123-153 | a write appends the bytes taken, however the C library buffers them |
| `LogRotation.OpenKeepsHistory` | src/util/log/internal/log_sink_file.c:51-70 | opening keeps all bytes logged exactly if no open handle buffers any; otherwise exactly the buffered ones are lost |
| `LogRotation.ReadingBack` | src/util/log/internal/log_sink_file.c:174-313 | reading the numbers from the highest down and then the current file gives a suffix of all bytes ever logged: exactly the newest min(N, m) segments and the current file, but for buffered bytes; no other number exists |
| `LogRotation.EveryRunReadsBack` | src/util/log/internal/log_sink_file.c:51-313 | every run of opens, closes, writes and rotations on a directory without numbered files: read from the highest number down, the files are exactly the newest min(N, m) of the N segments cut, where N counts the rotations that found a current file, and the current file with its buffered bytes is what was written since; segments and current file make up the former content and all bytes taken, unless the sink was opened while open |
| `LogRotation.RunAgrees` | src/util/log/internal/log_sink_file.c:51-313 | the induction behind it, from any state that agrees with a ledger of the calls |
| `LogRotation.LedgerCounts` | src/util/log/internal/log_sink_file.c:51-313 | the ledger cuts one segment per rotation of a current file, never changes a segment, and loses no byte taken in a run that does not open an open sink |
| `LogRotation.SizeStaysExact` | src/util/log/internal/log_sink_file.c:134-150 | the size kept stays exact unless a write is cut short, or every 128th write finds bytes still buffered |
| `LogRotation.WriteMeans` | src/util/log/internal/log_sink_file.c:123-153 | a write succeeds exactly if the file is open and takes everything; what it adds, counts, flushes and reads back |
| `LogRotation.OpenMeans` | src/util/log/internal/log_sink_file.c:51-87 | what opening and closing leave |
| `LogRotation.RotateMeans` | src/util/log/internal/log_sink_file.c:222-313 | a rotation leaves the sink open on an empty file, reports success exactly if there was a file to move away, which is then number 1, and leaves no temporary file of its own then |
| `LogRotation.LogFile.Write` | src/util/log/internal/log_sink_file.c:123-153 | the write in place, with counters, flushes and the size read back every 128 writes |
| `LogRotation.LogFile.Shift` | src/util/log/internal/log_sink_file.c:174-189 | the descending rename loop |
| `LogRotation.LogFile.Rotate` | src/util/log/internal/log_sink_file.c:222-313 | the rotation in place; with a current file it succeeds and keeps the history |
| `LogRotation.LogFile.Open` | src/util/log/internal/log_sink_file.c:51-70 | opens for appending, also while open, when the bytes buffered by the old handle never reach the file; all other bytes are kept |
| `LogRotation.LogFile.Close` | src/util/log/internal/log_sink_file.c:74-87 | buffered bytes go to the file, and the history is kept |
| `LogRotation.LogFile.Perform` | src/util/log/internal/log_sink_file.c:51-313 | each call, in place, keeps the history; exactly a rotation adds a segment |
| `LogRotation.LogFile.Run` | src/util/log/internal/log_sink_file.c:51-313 | the calls, one after the other, have the effect of the function on runs; once the current file exists, the history is kept, with one new segment for every rotation among the calls, and only grows unless an open sink is opened again |
| `MgrBus.FirstWithIsFirst` | src/util/mgr_bus/mgr_bus.c:48-59 | the inbox found is the first with the address, and none is found only if there is none |
| `MgrBus.BroadcastReaches` | src/util/mgr_bus/mgr_bus.c:202-217 | a broadcast, failing or not, has reached exactly the inboxes with room; it reports success exactly if these are all and there is one |
| `MgrBus.UnicastReaches` | src/util/mgr_bus/mgr_bus.c:218-230 | a unicast reports success exactly if an inbox has its address and the first such one has room; then exactly that queue has the message at its end; otherwise nothing changes |
| `MgrBus.PopMeans` | src/util/mgr_bus/mgr_bus.c:245-291 | a round of a pop fails exactly once woken, delivers the head of the first inbox that holds anything, which is logged as taken, and otherwise comes back empty or waits |
| `MgrBus.PopForMeans` | src/util/mgr_bus/mgr_bus.c:300-346 | the same for one address: only the first inbox with it counts, and without one the pop fails |
| `MgrBus.RunKeepsInv` | src/util/mgr_bus/mgr_bus.c:194-346 | over every run of unicasts, broadcasts, pops and wake-ups: what was stored in an inbox is, in order, what was taken from it followed by what is in it; capacities hold; an inbox only ever gets broadcasts and messages for which it is the first with their address |
| `MgrBus.NothingDeliveredAfterWakeup` | src/util/mgr_bus/mgr_bus.c:176-185 | the wake flag is never cleared: after a wake-up no pop delivers anything any more |
| `MgrBusWaits.NoPopSleepsBesideAMessage` | src/util/mgr_bus/mgr_bus.c:194-346 | over every run with any number of pops of both kinds: one that is asleep and has not been woken has nothing to take, in any inbox or in the first one with its address, and no wake-up has been asked for |
| `MgrBusWaits.RunsAreRuns` | src/util/mgr_bus/mgr_bus.c:194-346 | sleeping pops included, the bus goes through one of the runs of the other theorems |
| `MgrBus.Inbox.TryPush` | src/util/mgr_bus/mgr_bus.c:66-78 | the ring appends if there is room |
| `MgrBus.Inbox.TryPop` | src/util/mgr_bus/mgr_bus.c:84-96 | the ring gives its oldest message |
| `MgrBus.MgrBus.constructor` | src/util/mgr_bus/mgr_bus.c:101-141 | one empty inbox per address, 64 messages each if no capacity is given |
| `MgrBus.MgrBus.FindIndex` | src/util/mgr_bus/mgr_bus.c:48-59 | the search loop finds the first inbox with the address |
| `MgrBus.MgrBus.Broadcast` | src/util/mgr_bus/mgr_bus.c:203-216 | the loop stores into each inbox that has room and reports the two flags it keeps |
| `MgrBus.MgrBus.TryPush` | src/util/mgr_bus/mgr_bus.c:194-233 | unicast to the first inbox with the address, or broadcast; the invariant is kept |
| `MgrBus.MgrBus.PopRound` | src/util/mgr_bus/mgr_bus.c:245-291 | woken, the first non-empty inbox, nothing, or sleep, in this order; the invariant is kept |
| `MgrBus.MgrBus.PopForRound` | src/util/mgr_bus/mgr_bus.c:300-346 | the same for one address, with the address looked up first |
| `LogicEngine.FrontIsSettled` | src/engine/logic/logic_engine.c:97-112 | leaving the loops early does not change the first eight values |
| `LogicEngine.ValuesMean` | src/engine/logic/logic_engine.c:97-112 | channel ch of card i is the value behind all channels of the valid cards before it, if among the first eight; there are as many values as channels, up to eight |
| `LogicEngine.Engine.ApplySnapshot` | src/engine/logic/logic_engine.c:81-123 | the values are the first eight of the channels of the valid cards one after the other, the rest zero; counters are updated |
| `LogicEngine.Engine.Collect` | src/engine/logic/logic_engine.c:97-112 | the nested loops with their early exits |
| `OutputMap.RoutesAreHonoured` | src/engine/logic/logic_output_map.c:123-172 | for every table of routes: one card per number used, in the order of first use, with the type of the first route, the width of the largest channel, and on each channel the value of the last effective route or 0; never more cards than routes |
| `OutputMap.RouteShows` | src/engine/logic/logic_output_map.c:123-172 | in terms of single routes: each channel that some route drives shows the value of the last such route on the one card with that number, any other shows 0, and each card has a route |
| `OutputMap.PlacedIsDescribed` | src/engine/logic/logic_output_map.c:150-168 | one more effective route keeps the cards as the routes so far ask |
| `OutputMap.CardNosAreDistinct` | src/engine/logic/logic_output_map.c:17-37 | the card numbers are pairwise different and are those of the routes |
| `OutputMap.CardNosInOrder` | src/engine/logic/logic_output_map.c:17-37 | they come in the order of first use: more routes only add behind |
| `OutputMap.SettingIsLast` | src/engine/logic/logic_output_map.c:164 | the setting of a channel is the value of the last route to it |
| `OutputMap.SettingOfNone` | src/engine/logic/logic_output_map.c:134 | without a route it is 0 |
| `OutputMap.OutputSnapshot.FindOrCreate` | src/engine/logic/logic_output_map.c:6-37 | the slot with the card number, or a new one behind the others, or none when all 24 are taken |
| `OutputMap.DefaultRoutesDriveCardZero` | src/engine/logic/logic_output_map.c:82-172 | without a configuration every snapshot holds at most one card: an output card with number 0 that shows the first two values in use on channels 0 and 1, and 0 on all others |
| `OutputMap.RouteMap.ApplyConfig` | src/engine/logic/logic_output_map.c:60-80 | at most eight routes are taken over |
| `OutputMap.RouteMap.Apply` | src/engine/logic/logic_output_map.c:123-172 | the snapshot, whatever it held, is as the routes ask, all slots behind the cards in use are blank, and creating a slot never fails |
| `RedPolicy.ErrScoreIsLargestBalance` | src/mgr/red/red_policy.c:26-44 | after any history the error score is the maximum over all suffixes of errors minus oks |
| `RedPolicy.OkScoreIsTrailingRun` | src/mgr/red/red_policy.c:26-44 | the ok score is the length of the trailing run of oks |
| `RedPolicy.DecisionMeans` | src/mgr/red/red_policy.c:46-60 | FAILOVER exactly if some suffix has at least the threshold more errors than oks; RECOVER exactly if not and the last feeds are enough oks |
| `RedPolicy.Policy.constructor` | src/mgr/red/red_policy.c:6-24 | thresholds of 0 become 3 and 2 |
| `RedPolicy.Policy.FeedError` | src/mgr/red/red_policy.c:26-33 | the counters are those of the longer history |
| `RedPolicy.Policy.FeedOk` | src/mgr/red/red_policy.c:35-44 | the counters are those of the longer history |
| `RedPolicy.Policy.Eval` | src/mgr/red/red_policy.c:46-60 | the decision in terms of the history of feeds |
| `RedEngine.StateIsHistory` | src/engine/red/red_engine.c:71-143 | the policy has been fed one feed per report, timeout or request; a hold lasts from an operator's hold to the next release; the three counters count the oks, errors and timeouts among the inputs |
| `RedEngine.MemoryIsLastOffer` | src/engine/red/red_engine.c:71-195 | what ticks remember is the decision offered last, as a function of the inputs alone: a tick offers its decision, or Keep on hold; a peer's ok and a release offer Keep |
| `RedEngine.TickMeans` | src/engine/red/red_engine.c:145-195 | for every history, which action a tick takes and which value it reports: on hold the hold is proposed unless Keep was offered last; otherwise the decision the inputs call for, proposed unless offered last |
| `RedEngine.RequestMeans` | src/engine/red/red_engine.c:72-108 | the same for a request, which counts first and has no such memory; a hold does not matter |
| `RedEngine.ReportsMean` | src/engine/red/red_engine.c:110-143 | an operator's hold is proposed each time; reports, timeouts and releases are answered by Keep |
| `RedEngine.TickProposesFailover` | src/engine/red/red_engine.c:145-195 | a tick proposes a failover exactly if no hold is on, some suffix of the feeds has three more errors than oks, and failover was not offered last |
| `RedEngine.TickProposesRecovery` | src/engine/red/red_engine.c:145-195 | a tick proposes a recovery exactly if no hold is on, no suffix reaches three, the last two feeds are oks, and recovery was not offered last |
| `RedEngine.NoRepeatedFailover` | src/engine/red/red_engine.c:145-195 | two ticks that propose a failover always have an input in between that reset the last proposal: a peer's ok, a release, or a tick that decided otherwise |
| `RedEngine.RequestProposes` | src/engine/red/red_engine.c:72-108 | a request with a negative argument counts as an error and, with two more errors than oks in some suffix before it, proposes a failover whatever was proposed last |
| `RedEngine.RequestProposesRecovery` | src/engine/red/red_engine.c:72-108 | a request with a non-negative argument proposes a recovery exactly if the last feed before it is an ok and no suffix reaches three, whatever was offered last |
| `RedEngine.RequestsRepeatFailover` | src/engine/red/red_engine.c:72-108 | evaluation on request has no such memory |
| `RedEngine.Engine.Apply` | src/engine/red/red_engine.c:58-200 | the switch over all kinds of input, in place; an unknown kind changes nothing |
| `RedEngine.Engine.Tick` | src/engine/red/red_engine.c:145-195 | the tick branch, in place |

## Left out

- The hash function h32 (`src/util/dispatch/dispatch.c:144-155`): the table is proved correct for every hash function instead.
- More than one consumer of the dispatcher; observers and policy callbacks run between its regions and are parameters.
- The control events that cancelling also pushes are pushes of their own.
- `dispatch_epoch_set`, which is declared but not part of this model; reading counters and capacities.
- Wrap-around of the 64-bit epoch, wake counter and line numbers, and of 32-bit scores and message counts.
- SnapshotShm.NoTornRead: assumes sequential consistency and fewer than 2^32 commits during one round, since the sequence number is 32 bits wide; weak memory orders, and a writer that is initialised again, are not modelled.
- SnapshotShm.Region.ReadSnapshot: bounds the commits that finish while it loops, since the retry loop of a reader against an endlessly committing writer need not end.
- The log sink's writer is one thread, and a send that fails puts nothing of its line on the wire.
- LogUiRuns.AttachedClientMissesNothing: assumes that notifications are on and that the copy and the sends to the new client succeed; failures are in the model and end the replay or the streaming.
- Cells of the log ring are rows of a two-dimensional array, not offsets into one block of memory.
- IniParser.IniParser.ParseStream: texts in which a swallowed piece of an overlong line begins with a NUL, where the source reads the byte before its buffer; lines read by `fgets` from a failing file.
- The INI store in memory that is not zeroed before loading; typed getters and setters, which only convert.
- Peer credentials are one yes or no; the clamping of the poll timeout, and the closing of refused descriptors.
- UI session callbacks are taken as installed; destroying and re-initialising the session.
- LogRotation.LogFile.Open: a handle lost by opening again keeps its buffer for good; that the C library may write it out when the process exits is not modelled, nor an `fopen` that fails.
- Renames, reopens and flushes that fail in the log file, and the copy of the first segment to `.0`.
- Checks for null pointers, allocation and destruction in all components.
- Message sending helpers, snapshot notifications and log chunks of the UI manager, which only fill in a frame.
- `logic_engine_apply`, which echoes its two arguments.
- The reason codes of the redundancy engine for an evaluation that fails, which it cannot.
- The managers' state machines and run loops, configuration delivery between managers, the log core's worker and reference counts, and the observation rings: near copies of what is modelled, or plain wiring.
