# Verified models of blueking-dbm

Dafny 4.11 models of the parts of blueking-dbm where a mistake loses data or gives a wrong answer quietly,
with proofs of what they guarantee and of exactly where the guarantee ends.
`dafny verify dfyconfig.toml` checks everything.

**The offset-committing log scanner** (`Lines`, `Reading`, `RegFile`, `RotatedFile`, `Sessions`,
`CommitScanner`, `Protocol`, `ProtocolTheorems`, `DeliveryOrder`, `LineStarts`, `CommitLoss`, `Gaps`). A scanner
reads a log line by line and stores its position in a reg file only when told to; the log may be rotated under
it, and the next session then reads the rest of the rotated file before the new one. `CommitScanner` is the
object, method by method, over readers with a fixed-size buffer; each method is proved to compute a function of
`Sessions`. `Protocol` runs those functions against a writer that appends and rotates, with crashes anywhere, and
proves an invariant of every step. `ProtocolTheorems` draws the conclusions. `DeliveryOrder` says that a session
delivers each line once and in order whatever the writer does meanwhile, `LineStarts` when every stored offset is
a line start and every delivered text a whole line, and `CommitLoss` what a commit loses, guarded or not. `Gaps`
gives a run that ends in each place where a guarantee ends. Bytes are arbitrary: carriage returns are modelled as
the buffered reader treats them.

**Alarm-policy resolution** (`PolicyResolution`). Three phases of loops over a shared table, proved to be a
priority rule that looks at one cluster at a time.

**The host pool and its event log** (`HostPool`, `Migration`). One trigger updates a table and a log; from any
table, the table is the replay of the log over that first table exactly as long as one kind of batch is not
triggered. The paged migration, which logs nothing, is proved to reach its final table, and exactly when it does
so from a table that is not empty; after it, a host without events is where the migration put it.

**Smaller parts**: load aggregation (`ClusterLoad`), the shield-description tag (`ShieldDescription`), package
records and stored files (`PackageFiles`), and the slots of periodic tasks (`Countdown`). `Decimal`, `Text`,
`Sets` and `Results` are shared.

## Where the code falls short of its comments

Each of these is proved, with the exact condition.

- The scanner's `Commit` is safe exactly when it has nothing to write, or the rotated file has been left and the
  offset is not negative (`CommitSafeExactly`). A Commit after the final false Scan, with the new file still
  empty, records a negative offset, and the next session skips the log (`CommitAfterEmptyNewFile`, reached by
  `EmptyFileGapReached`). A Commit that writes while the rotated file is being drained records its offset under
  the new file's inode (`CommitWhileDraining`; `DrainingGapReached` is a run that loses a line so). Any commit
  loses nothing exactly when no finished line starts in what the next session passes over
  (`CommitLosesExactly`).
- A blank reg file means a cold start, so a crash between truncating and rewriting it skips whatever is in the
  log (`ColdRecordSkipsLog` with `BlankReg`).
- The offset a Commit stores is the place the last line was taken from exactly when no earlier line of the
  session and file ended in carriage return, line feed; it is never past that place (`OffsetExact`;
  `CarriageReturnGapReached` is a run where it falls inside a line). Without such lines every stored offset is a
  line start exactly when the cold start found the log empty or ending in a line feed and CommitOffset was given
  line starts only (`RecordsBetweenLinesExactly`). Otherwise the first line can be delivered as a fragment, and no other
  (`OffsetIsLineStartExactly`, `FragmentGapReached`).
- An unterminated tail is dropped exactly when, without carriage returns, its length is a multiple of the buffer
  size (`TailDroppedWhen`). One that the open session has already taken and that is finished before its next
  Scan is delivered whole exactly when nothing but its whole line end was missing; the rest comes as a line of
  its own either way, and the offset then to commit is one too large (`FinishingADeliveredTail`,
  `HeldTailMiscounts`, reached by `TailGapReached` and `HeldTailReached`). A half-written line that the session has
  not taken yet, or took before it ran dry, may be finished at any time.
- A restart is complete exactly when the recorded file is the log, or the files between hold nothing to deliver
  and the recorded file is found or spent as well (`RestartCompleteExactly`, `LostFileGapReached`).
- The host trigger logs a move for hosts it knows nothing about without creating rows, when the whole batch is
  unknown and the target is neither the resource pool nor recycling (`TriggerConsistentExactly`). The migration
  drops the unknown hosts of a page that is partly known (`MigrationCompleteExactly`).
- Formatting a shield description twice, or undoing it, works exactly when the bare text does not hold the tag
  again; it can, for every business (`DeformatFormat`, `FormatTwice`, `TornTagMends`).
- Package creation is safe exactly when a path outside staging is already stored (`CreateSafeExactly`). The
  formal path does not depend on the distribution's engine (`FormalPathExactly`), so a package for another engine
  replaces the file of the first (`EngineOverwrites`). A failed batch keeps the records and not the contents
  (`RollbackKeepsReplacement`).

## Model

| member | source | states |
|---|---|---|
| Lines.SplitJoin | dbm-services/common/offsetlinescanner/commit_scanner.go:71-109 | the reference split: its pieces hold no line feed and join back to the bytes |
| Lines.JoinSplit | dbm-services/common/offsetlinescanner/commit_scanner.go:71-109 | the split is unique: any line-feed free pieces that join to the bytes are it |
| Reading.GatherIsNextLine | dbm-services/common/offsetlinescanner/commit_scanner.go:89-108 | appending pieces of a long line gives the line up to the line feed less one carriage return, or drops it when the file ends on a full piece |
| Reading.ReadAllIsSplit | dbm-services/common/offsetlinescanner/commit_scanner.go:71-109 | for every buffer size, all bytes and every position, what is read is the line-feed split, terminated pieces without their carriage return, the tail unless dropped |
| Reading.TailDroppedWhen | dbm-services/common/offsetlinescanner/commit_scanner.go:92-105 | without carriage returns the unterminated tail is dropped iff its length is a multiple of the buffer size |
| Reading.TailEndingInCRKept | dbm-services/common/offsetlinescanner/commit_scanner.go:92-105 | a tail that ends in a carriage return is never dropped |
| Reading.SpentOwesNothing | dbm-services/common/offsetlinescanner/commit_scanner.go:92-105 | nothing is owed from a position iff no line feed is left and the rest is dropped |
| Reading.PlainReadAll | dbm-services/common/offsetlinescanner/commit_scanner.go:71-109 | without carriage returns the lines are the split's pieces themselves, less a tail of a multiple of the buffer size |
| RegFile.RegRoundTrip | dbm-services/common/offsetlinescanner/commit_scanner.go:175-261 | parsing what writeReg prints gives the same offset and inode, for every int64 and uint64 |
| RegFile.FormatRegIs | dbm-services/common/offsetlinescanner/commit_scanner.go:186 | the text written is an optional minus, digits, a comma and digits, each number without leading zeros |
| RegFile.ParseRegIs | dbm-services/common/offsetlinescanner/commit_scanner.go:237-261 | exactly which texts are records and of what: blank, a signed 64-bit decimal, or one, the first comma, and an unsigned 64-bit decimal; all others are refused |
| RegFile.LegacyReg | dbm-services/common/offsetlinescanner/commit_scanner.go:237-261 | a bare decimal is read as that offset with inode 0 |
| RegFile.BlankReg | dbm-services/common/offsetlinescanner/commit_scanner.go:240-243 | white space only is read as a cold start |
| RotatedFile.FindRotatedFile | dbm-services/common/offsetlinescanner/commit_scanner.go:419-469 | the two loops compute the search |
| RotatedFile.FindIsAnswer | dbm-services/common/offsetlinescanner/commit_scanner.go:415-469 | a path is what the search returns iff it is the first listed suffix that carries the inode, else the first plain prefix sibling that does, else the empty string |
| RotatedFile.FoundHasInode | dbm-services/common/offsetlinescanner/commit_scanner.go:427-465 | opening the returned path opens the wanted inode, never under the log's own name |
| Sessions.RestartStable | dbm-services/common/offsetlinescanner/commit_scanner.go:294-412 | the record a construction writes is a fixed point: constructing again after any appends gives the same session and record, in every branch |
| Sessions.OpenIs | dbm-services/common/offsetlinescanner/commit_scanner.go:292-412 | every way a construction can go, in the session's own fields: the position, the rotated handle, the two offsets and the text written back |
| Sessions.OpenFails | dbm-services/common/offsetlinescanner/commit_scanner.go:292-325 | a construction fails exactly without the log, or with a reg file that is no record |
| Sessions.LegacyRestart | dbm-services/common/offsetlinescanner/commit_scanner.go:331-358 | a record without an inode resumes in the log at its offset, or at 0 when the log is shorter, with no rotated handle, and owes every line from there |
| Sessions.ScanDelivers | dbm-services/common/offsetlinescanner/commit_scanner.go:60-129 | a true Scan delivers the first line still owed, a false one means none was |
| Sessions.RotationTransparent | dbm-services/common/offsetlinescanner/commit_scanner.go:60-129 | a session delivers the rotated file's remaining lines, then the new file's, once and in order, and then returns false for ever |
| CommitScanner.LineReader.ReadLine | dbm-services/common/offsetlinescanner/commit_scanner.go:71-93 | the buffered reader's contract: next piece, prefix flag, end of file, new position |
| CommitScanner.OffsetCommitScanner.constructor | dbm-services/common/offsetlinescanner/commit_scanner.go:400-412 | the fresh object's whole state |
| CommitScanner.OffsetCommitScanner.SwitchToNewFile | dbm-services/common/offsetlinescanner/commit_scanner.go:119-129 | drops the rotated reader and resets the two offsets, and not the length of the last line |
| CommitScanner.OffsetCommitScanner.ReadLongLine | dbm-services/common/offsetlinescanner/commit_scanner.go:89-108 | the loop gathers the pieces, or reports the end of file inside the line |
| CommitScanner.OffsetCommitScanner.ReadFullLine | dbm-services/common/offsetlinescanner/commit_scanner.go:71-109 | either path returns the next line said without pieces |
| CommitScanner.OffsetCommitScanner.Scan | dbm-services/common/offsetlinescanner/commit_scanner.go:60-116 | the recursive Scan terminates and takes the state to that of Sessions.Scan |
| CommitScanner.OffsetCommitScanner.WriteReg | dbm-services/common/offsetlinescanner/commit_scanner.go:175-188 | the reg file becomes the offset with the session's own inode, nothing else changes |
| CommitScanner.OffsetCommitScanner.CommitOffset | dbm-services/common/offsetlinescanner/commit_scanner.go:160-171 | writes and remembers the offset unless it is the last one committed |
| CommitScanner.OffsetCommitScanner.Commit | dbm-services/common/offsetlinescanner/commit_scanner.go:143-157 | commits the position before the last delivered line |
| CommitScanner.NewOffsetCommitScanner | dbm-services/common/offsetlinescanner/commit_scanner.go:271-413 | opens the session of Sessions.Open and writes its record, or fails and writes nothing; Sessions.OpenIs says what that session is |
| Protocol.RestartResumesAtDurable | dbm-services/common/offsetlinescanner/commit_scanner.go:327-397 | in a reachable state a construction resumes at the recorded position and keeps its record, or at the start of the log when the recorded file is gone, whatever happened to the directory; the first starts at the end of the log |
| Protocol.TakePasses | dbm-services/common/offsetlinescanner/commit_scanner.go:86-115 | taking a line passes exactly one line start and records its delivery |
| Protocol.EndPasses | dbm-services/common/offsetlinescanner/commit_scanner.go:73-77 | at the end of a file every line of it has been passed, and of the files after it up to one with a finished line |
| Protocol.TakeCounts | dbm-services/common/offsetlinescanner/commit_scanner.go:111-114 | counting length plus one keeps the position less the lost carriage returns; only an unfinished tail is counted one too far |
| Protocol.ScanKeeps | dbm-services/common/offsetlinescanner/commit_scanner.go:60-129 | a Scan keeps the whole invariant in all of its branches |
| Protocol.CommitKeeps | dbm-services/common/offsetlinescanner/commit_scanner.go:143-171 | a guarded Commit or CommitOffset keeps the invariant, and moves the recorded position back iff its offset is less than the one last committed |
| Protocol.StepKeeps | dbm-services/common/offsetlinescanner/commit_scanner.go:60-413 | append, rotate, directory change, construct, Scan, Commit, CommitOffset and crash each keep the invariant; an append is held back only while the open session has just taken the half-written line, a construction only when it would pass over a finished line |
| ProtocolTheorems.AtLeastOnce | dbm-services/common/offsetlinescanner/commit_scanner.go:17-27 | after any run every finished line since the cold start was delivered or lies at or after the recorded position |
| ProtocolTheorems.ExhaustedDelivers | dbm-services/common/offsetlinescanner/commit_scanner.go:25-27 | when a session on the log runs dry, every finished line since the cold start has been delivered |
| DeliveryOrder.SessionInOrder | dbm-services/common/offsetlinescanner/commit_scanner.go:60-129 | over every run, while a session lasts its deliveries are at strictly ascending places between where it stood and where it stands, and every finished line in between is among them |
| ProtocolTheorems.StepDurable | dbm-services/common/offsetlinescanner/commit_scanner.go:141-171 | a step moves the recorded position back iff it is such a CommitOffset; no Commit, restart or rotation does |
| ProtocolTheorems.DurableNeverMovesBack | dbm-services/common/offsetlinescanner/commit_scanner.go:141-157 | over every run without a CommitOffset below the offset last committed the recorded position only moves forward, across switches, restarts and rotations |
| ProtocolTheorems.OffsetExact | dbm-services/common/offsetlinescanner/commit_scanner.go:111-114 | after a true Scan the offset to commit is at most the place the line was taken from, and equal to it iff no earlier line of the session and file lost a carriage return; the bytes delivered are those from there to the line feed |
| LineStarts.RecordsBetweenLinesExactly | dbm-services/common/offsetlinescanner/commit_scanner.go:86-157 | without CRLFs: in every state of every run the recorded position lies between two lines iff the cold start found the log empty or ending in a line feed and CommitOffset was given such places only |
| LineStarts.OffsetIsLineStartExactly | dbm-services/common/offsetlinescanner/commit_scanner.go:86-157 | without CRLFs: after every true Scan the offset to commit is where the line was taken from, a line start unless the cold start's own place was inside a line; the text is the whole rest of the line, and from a line start a piece of the file's split |
| LineStarts.StepLineInv | dbm-services/common/offsetlinescanner/commit_scanner.go:60-413 | each step keeps what is recorded, delivered or counted from between lines |
| ProtocolTheorems.CommitSafeExactly | dbm-services/common/offsetlinescanner/commit_scanner.go:143-188 | at any moment of any run the record after a Commit names a place not past the last delivered line iff the guard held |
| ProtocolTheorems.CommitOffsetSafeExactly | dbm-services/common/offsetlinescanner/commit_scanner.go:160-188 | the same for CommitOffset with any int64: the guard is enough, and needed up to the offset Commit would store, and for all offsets while no carriage return was lost |
| CommitLoss.CommitLosesExactly | dbm-services/common/offsetlinescanner/commit_scanner.go:143-188 | at any moment of any run and for any int64 offset, guarded or not: where the session after the commit begins, and that it reads every finished line not yet passed iff none starts between here and there nor in the files it passes over; it then reads every line never delivered |
| CommitLoss.GuardedCommitLosesNothing | dbm-services/common/offsetlinescanner/commit_scanner.go:143-171 | a guarded commit of a session on the log itself loses no line |
| CommitLoss.ReadIsOwed | dbm-services/common/offsetlinescanner/commit_scanner.go:60-129 | a finished line in a file that a session reads from that place or before is among the lines it delivers |
| ProtocolTheorems.ColdRecordSkipsLog | dbm-services/common/offsetlinescanner/commit_scanner.go:328-330 | a negative or blank record starts at the end of the log and owes nothing that is in it |
| ProtocolTheorems.CommitAfterEmptyNewFile | dbm-services/common/offsetlinescanner/commit_scanner.go:119-157 | every session that runs dry in an empty new file records a negative offset on Commit, and the next one skips the log |
| ProtocolTheorems.CommitWhileDraining | dbm-services/common/offsetlinescanner/commit_scanner.go:175-188 | a Commit that writes while draining is never safe, and the next session does not look for the rotated file |
| ProtocolTheorems.FinishingADeliveredTail | dbm-services/common/offsetlinescanner/commit_scanner.go:71-114 | if a half-written line is finished when the session has just taken it, the text delivered is the line iff nothing but its whole line end was missing; the rest comes as a line of its own, which is the line iff that is empty; the next offset is one more than the bytes taken |
| ProtocolTheorems.HeldTailMiscounts | dbm-services/common/offsetlinescanner/commit_scanner.go:71-157 | in every run, finishing a line that the session has just taken makes the next Scan take the rest from no line start, with an offset to commit past that place iff no carriage return went uncounted |
| Gaps.DrainingGapReached | dbm-services/common/offsetlinescanner/commit_scanner.go:175-188 | a run to a Commit while draining after which the next session owes nothing though a finished line was not delivered |
| Gaps.EmptyFileGapReached | dbm-services/common/offsetlinescanner/commit_scanner.go:119-157 | a run to a Commit of a negative offset after which the next session owes nothing, whatever is written to the new file first |
| Gaps.TailGapReached | dbm-services/common/offsetlinescanner/commit_scanner.go:71-114 | a run to a session about to deliver an unfinished tail: whatever finishes it, unless only the line end was missing, neither piece delivered is the line |
| Gaps.HeldTailReached | dbm-services/common/offsetlinescanner/commit_scanner.go:71-114 | a run to a session that has just taken a half-written line |
| Gaps.FragmentGapReached | dbm-services/common/offsetlinescanner/commit_scanner.go:328-330 | a run without carriage returns whose cold start found half a line that was then finished: the session delivers the other half, which is no piece of the split, and would commit an offset that is no line start |
| Gaps.CarriageReturnGapReached | dbm-services/common/offsetlinescanner/commit_scanner.go:111-157 | a run from an empty log whose harmless Commit records an offset inside a line, after a carriage return |
| Gaps.LostFileGapReached | dbm-services/common/offsetlinescanner/commit_scanner.go:331-351 | a run after which a restart passes over an undelivered line, the rotated file not having been kept |
| ProtocolTheorems.RestartCompleteExactly | dbm-services/common/offsetlinescanner/commit_scanner.go:327-358 | however often the log was rotated, a restart owes every line since the recorded position iff the recorded file is the log, or all files between hold nothing to deliver and the recorded one is found or spent too |
| ProtocolTheorems.NothingIsNoLine | dbm-services/common/offsetlinescanner/commit_scanner.go:331-351 | the runs' guard on constructions asks for less than a complete restart: no finished line passed over |
| PolicyResolution.Resolver.RecordMatch | dbm-ui/backend/db_monitor/handlers.py:102-116 | first come first served; raises iff strict and another policy's id is there |
| PolicyResolution.Resolver.MatchRule | dbm-ui/backend/db_monitor/handlers.py:89-91 | the inner loop of the domain match records or raises for exactly the clusters the rule hits |
| PolicyResolution.Resolver.MatchClusterDomain | dbm-ui/backend/db_monitor/handlers.py:84-91 | records or raises for exactly the clusters some domain rule hits |
| PolicyResolution.Resolver.MatchAllClusters | dbm-ui/backend/db_monitor/handlers.py:94-99 | the same for all clusters, when the level fits |
| PolicyResolution.Resolver.MatchDimensions | dbm-ui/backend/db_monitor/handlers.py:119-139 | matched iff no given dimension is refused; the last domain rule's values |
| PolicyResolution.Resolver.MatchSubPolicy | dbm-ui/backend/db_monitor/handlers.py:178-202 | each of the three kinds of match records exactly the clusters the sub-policy matches |
| PolicyResolution.Resolver.MatchSubPolicies | dbm-ui/backend/db_monitor/handlers.py:178-202 | raises iff some cluster is matched by two sub-policies with different ids; otherwise each cluster has its first match |
| PolicyResolution.Resolver.MatchFallback | dbm-ui/backend/db_monitor/handlers.py:208-214 | the first policy whose level fits takes every cluster still without one |
| PolicyResolution.ClassifyPolicy | dbm-ui/backend/db_monitor/handlers.py:142-151 | three groups by parent and target level: each holds the rows of its kind, all of them, in their order |
| PolicyResolution.CollectRules | dbm-ui/backend/db_monitor/handlers.py:219-224 | every policy of the table reports its rules, restricted to the level when one is given |
| PolicyResolution.ResolveTable | dbm-ui/backend/db_monitor/handlers.py:178-214 | the three phases raise iff ambiguous, else give each cluster what the priority rule says |
| PolicyResolution.GetPolicyThreshold | dbm-ui/backend/db_monitor/handlers.py:154-225 | errors exactly without a cluster id or when two sub-policies with different ids suit a cluster, None exactly when there is nothing to resolve or no policy; else each cluster gets the rules of the level asked for, in order, of the earliest sub-policy row that suits it, failing that the earliest business row that fits, failing that the earliest parent row that fits |
| PolicyResolution.SuitsIs | dbm-ui/backend/db_monitor/handlers.py:178-202 | what a sub-policy has to meet for a cluster, in its targets' own keys, operators and values |
| PolicyResolution.TargetValueMeans | dbm-ui/backend/db_monitor/handlers.py:26-46 | the six operators of ordinary targets: equal to, contained in or found by some value, and their complements; no other operator admits anything |
| PolicyResolution.PromqlTargetMeans | dbm-ui/backend/db_monitor/handlers.py:49-64 | the four operators of query targets, and no other |
| PolicyResolution.WinsOnce | dbm-ui/backend/db_monitor/handlers.py:178-214 | a cluster has at most one policy under the rule on the rows |
| PolicyResolution.ClashMakesAmbiguous | dbm-ui/backend/db_monitor/handlers.py:109-116 | a strict clash in the loop is an ambiguity of the request |
| PolicyResolution.AmbiguityClashes | dbm-ui/backend/db_monitor/handlers.py:109-116 | an ambiguity always shows as a clash in the loop |
| PolicyResolution.AppliesIsPriority | dbm-ui/backend/db_monitor/handlers.py:166-214 | the only matching sub-policy by id, else the first fitting business policy, else the first fitting parent, else nothing |
| PolicyResolution.ReportedRulesNonEmpty | dbm-ui/backend/db_monitor/handlers.py:67-72 | with a level given every reported list is non-empty and of that level |
| PolicyResolution.OrderIrrelevant | dbm-ui/backend/db_monitor/handlers.py:178-202 | raising or not, and the policy of each cluster, are the same for every order of the sub-policies |
| HostPool.TriggerConsistentExactly | dbm-ui/backend/db_dirty/models.py:64-103 | whatever table there was before the log, a trigger keeps the table the replay of the log over it iff it does not log unknown hosts into a pool that creates no rows; any mix of hosts |
| HostPool.RowsSpelledOut | dbm-ui/backend/db_dirty/constants.py:43-51 | the rows after a trigger, event kind by event kind |
| HostPool.EventsSpelledOut | dbm-ui/backend/db_dirty/models.py:163-184 | the events after a trigger: one for each host acted on, with the kind and where it leads |
| HostPool.ReplayExactly | dbm-ui/backend/db_dirty/models.py:144-184 | from any table and an empty log: in every state of the run each host with events is where its latest one left it and every other as it was at first, iff every request is guarded |
| HostPool.ReplayIsTable | dbm-ui/backend/db_dirty/models.py:144-184 | a table that the log explains entirely stays the replay of the log over every run of guarded requests |
| HostPool.CanReturnInResource | dbm-ui/backend/db_dirty/models.py:128-142 | a batch that may be returned holds only hosts in the resource pool and hosts without events, which are as they were at first |
| HostPool.Tables.HostsPoolTransfer | dbm-ui/backend/db_dirty/models.py:64-103 | the rows created, deleted or updated, the refusal, and the hosts returned |
| HostPool.Tables.CreateMachineEvents | dbm-ui/backend/db_dirty/models.py:163-184 | one event for each host is appended, in order |
| HostPool.Tables.HostEventTrigger | dbm-ui/backend/db_dirty/models.py:144-161 | refused exactly when a host to be removed still has metadata; an import or a return leaves known hosts, or a wholly unknown batch, in the resource pool, the moves to fault and recycling move known hosts, undoing an import and both ways of recycling leave no row, every other event leaves known hosts in no pool; one event for each host acted on, of its kind and destination; consistent iff the guard held |
| HostPool.Tables.HostsCanReturn | dbm-ui/backend/db_dirty/models.py:128-142 | true iff for every listed host no event is later than an import |
| HostPool.Tables.TransferHostsToPool | dbm-ui/backend/db_dirty/handlers.py:40-100 | three legal moves, each refused only for a host that still has metadata; exactly the listed known hosts move and are logged, in order, with the move's event; consistency is always kept |
| Migration.MigrateMachines | dbm-ui/backend/db_dirty/handlers.py:147-155 | the first paged loop imports its batches in turn |
| Migration.MigrateResources | dbm-ui/backend/db_dirty/handlers.py:157-167 | the second paged loop imports the resource hosts not in use |
| Migration.MigrateMachineToHostPool | dbm-ui/backend/db_dirty/handlers.py:140-167 | both loops, from any table |
| Migration.OnOnePage | dbm-ui/backend/db_dirty/handlers.py:147-150 | ceil paging reaches every host |
| Migration.PagesAre | dbm-ui/backend/db_dirty/handlers.py:145-150 | the pages are consecutive cuts of two hundred hosts, as many as are not empty |
| Migration.ImportAllRows | dbm-ui/backend/db_dirty/models.py:64-103 | a batch's hosts end in its pool if known before or if the whole batch was unknown; other rows are unchanged |
| Migration.MigrationComplete | dbm-ui/backend/db_dirty/handlers.py:140-167 | from an empty table: no pool for the hosts in use, the resource pool for the other resource hosts, no other row |
| Migration.MigratedThenReplayed | dbm-ui/backend/db_dirty/handlers.py:140-167 | after a migration into an empty table and any run of guarded requests, each host with events is where its latest one left it and each other where the migration put it |
| Migration.MigrationCompleteExactly | dbm-ui/backend/db_dirty/handlers.py:140-167 | from any table every host ends with a row iff no page was partly known |
| ClusterLoad.RecordsLast | dbm-ui/backend/db_monitor/tasks.py:320-336 | a series sets each cluster's status to its last non-zero sample's, and touches nothing else |
| ClusterLoad.LastPointIs | dbm-ui/backend/db_monitor/tasks.py:320-328 | the load used is the cluster's last in the series that is present and not zero |
| ClusterLoad.LoadTable.RecordSeries | dbm-ui/backend/db_monitor/tasks.py:320-336 | the innermost loop records sample by sample |
| ClusterLoad.LoadTable.RecordMachine | dbm-ui/backend/db_monitor/tasks.py:313-336 | the loop over a machine type's targets |
| ClusterLoad.LoadTable.RecordAll | dbm-ui/backend/db_monitor/tasks.py:311-336 | the table holds every target's verdict and nothing else; exactly the sampled clusters are in it |
| ClusterLoad.SummariseCluster | dbm-ui/backend/db_monitor/tasks.py:338-353 | each machine type's status, then the cluster's from those |
| ClusterLoad.ClusterRule | dbm-ui/backend/db_monitor/tasks.py:338-353 | the two-level aggregation is the flat rule, for high and for low |
| ClusterLoad.QueryClusterLoad | dbm-ui/backend/db_monitor/tasks.py:287-355 | a cluster is high iff the last load that is present and not zero of some target is above its configured or built-in maximum, low iff every machine type has a load and all last loads are below the minimum and none above the maximum; the same for each machine type; the second table holds for each target high, low or normal by that comparison, and nothing else |
| ShieldDescription.ParseFormat | dbm-ui/backend/db_monitor/utils.py:277-293 | parsing a formatted text gives back the business, for every description |
| ShieldDescription.ParseBizIs | dbm-ui/backend/db_monitor/utils.py:290-293 | the business read is that of the leftmost tag in the text, and the default when there is none |
| ShieldDescription.FormatIs | dbm-ui/backend/db_monitor/utils.py:277-287 | the formatted text is the tag, then what deformatting leaves: the description without the tag, stripped |
| ShieldDescription.RemoveFirst | dbm-ui/backend/db_monitor/utils.py:280 | removing the tag changes nothing up to its first copy and goes on after it |
| ShieldDescription.StripIs | dbm-ui/backend/db_monitor/utils.py:280 | stripping takes white space off both ends and nothing else, and leaves none there |
| ShieldDescription.DeformatFormat | dbm-ui/backend/db_monitor/utils.py:277-287 | deformatting the formatted text gives the bare text iff that does not hold the tag again |
| ShieldDescription.FormatTwice | dbm-ui/backend/db_monitor/utils.py:277-281 | formatting is idempotent under the same condition and only then |
| ShieldDescription.TornTagMends | dbm-ui/backend/db_monitor/utils.py:277-281 | for every business a description for which the condition fails |
| PackageFiles.FormalPathExactly | dbm-ui/backend/db_package/models.py:257-273 | formal paths are equal iff the five segments are |
| PackageFiles.BuildFormalPathIs | dbm-ui/backend/db_package/models.py:257-273 | the formal path is the five names in their order, and is refused exactly when the types differ from the distribution's or a name is not proper |
| PackageFiles.MoveExactly | dbm-ui/backend/core/storages/handlers.py:176-215 | which moves go through and what they come to, path by path: other paths stay, a staging file replaces what is at its formal path, one moved before is found there |
| PackageFiles.SameRecord | dbm-ui/backend/db_package/views.py:110-117 | two packages share a record iff name, version, version row and both types agree |
| PackageFiles.WellFormedIs | dbm-ui/backend/core/storages/handlers.py:196-200 | a path is taken iff some name in it is not empty and none is a dot or two |
| PackageFiles.JoinInjective | dbm-ui/backend/db_package/models.py:269-273 | joining proper segments is injective |
| PackageFiles.SplitJoinSegments | dbm-ui/backend/core/storages/handlers.py:196-202 | splitting a joined path at slashes gives its segments back |
| PackageFiles.MoveIsFormal | dbm-ui/backend/db_package/views.py:80-97 | a staging file that is moved ends at, replaces what was at, and is recorded under the formal path, which is not in staging |
| PackageFiles.MovedIsFormal | dbm-ui/backend/core/storages/handlers.py:136-153 | directory plus file name of a formal path is that path |
| PackageFiles.CreateSafeExactly | dbm-ui/backend/db_package/views.py:103-118 | a creation keeps every record's file stored and out of staging iff its path is in staging or stored |
| PackageFiles.CreateEachSafe | dbm-ui/backend/db_package/views.py:134-148 | the batch loop is safe at every package, also where it stops halfway |
| PackageFiles.BulkCreateIs | dbm-ui/backend/db_package/views.py:134-148 | a batch creates its packages in turn up to the first that fails; then no record has changed |
| PackageFiles.RunSafe | dbm-ui/backend/db_package/views.py:103-150 | over every run of the four requests every surviving record keeps its file |
| PackageFiles.DestroyDeletesExactly | dbm-ui/backend/db_package/models.py:276-296 | a deletion deletes exactly the files only the deleted records used, where the store lets it, and changes no other's contents |
| PackageFiles.DestroyIs | dbm-ui/backend/db_package/views.py:305-334 | a deletion is refused exactly when a record is in use, or for a single one when there is none, and then changes nothing |
| PackageFiles.ContentKeptExactly | dbm-ui/backend/core/storages/handlers.py:176-215 | a creation leaves a stored file outside staging as it is iff it moves no other contents onto it |
| PackageFiles.BatchKeepsContent | dbm-ui/backend/db_package/views.py:134-148 | over a batch, also one that stops halfway, a path that no package replaces keeps its contents |
| PackageFiles.RunKeepsContent | dbm-ui/backend/db_package/views.py:103-150 | over every run of the four requests a record that lasts keeps its file with the same contents as long as no request replaces it |
| PackageFiles.EngineOverwrites | dbm-ui/backend/db_package/models.py:257-273 | for every staging package and every other engine: the two records are distinct, share one path, and the second creation replaces the first's file |
| PackageFiles.RollbackKeepsReplacement | dbm-ui/backend/db_package/views.py:134-148 | for every package that moves onto a record's path there is a failing batch after which the records are as before and the record's file has the new contents |
| PackageFiles.OverwritingExample | dbm-ui/backend/db_package/views.py:80-97 | a store, a package, a record and a second staging file that meet what these two results ask for |
| PackageFiles.Packages.CreatePackage | dbm-ui/backend/db_package/views.py:103-118 | records and files change as the value model says |
| PackageFiles.Packages.BulkCreatePackages | dbm-ui/backend/db_package/views.py:125-150 | on a failure the records are rolled back and the moved files stay |
| PackageFiles.Packages.CleanUnreferencedFiles | dbm-ui/backend/db_package/models.py:276-296 | exactly the given paths no record refers to are deleted and returned, less those the store fails |
| PackageFiles.Packages.DestroyPackage | dbm-ui/backend/db_package/views.py:305-315 | deletes the record, then its file if no other record uses it |
| PackageFiles.Packages.BulkDestroyPackages | dbm-ui/backend/db_package/views.py:321-334 | refuses when an instance was installed from one of them, else deletes records and then files |
| Countdown.SlotsBounded | dbm-ui/backend/db_periodic_task/utils.py:37-38 | at least one slot and no more slots than tasks |
| Countdown.ModSlots | dbm-ui/backend/db_periodic_task/utils.py:36-40 | the slots have one common width of at least a minute and else no more than gives every task its own, as many as cover the period; task i has the one at i modulo their number |
| Countdown.ResultsExactly | dbm-ui/backend/db_periodic_task/utils.py:43-78 | exactly which results are possible: at once for a task alone, else any second of the period, a quarter of an hour by default, or one of the task's own slot |
| Countdown.SlotWithinPeriod | dbm-ui/backend/db_periodic_task/utils.py:40 | every slot is a non-empty range inside the period |
| Countdown.CountdownWithinPeriod | dbm-ui/backend/db_periodic_task/utils.py:25-78 | every range is non-empty and every result lies in the period |
| Countdown.SlotsPartition | dbm-ui/backend/db_periodic_task/utils.py:33-40 | every second of the period is in exactly one slot |
| Countdown.LoadsBalanced | dbm-ui/backend/db_periodic_task/utils.py:36-38 | over all tasks every slot gets one and no slot two more than another |

## Left out

- The scanner's file descriptors, I/O errors and the races between stat and open: files are values by inode, and a read or write does not fail.
- Reuse of inode numbers, and truncating a log in place and growing it again: a rotation always brings a fresh inode, and files only grow.
- A crash between truncating and rewriting the reg file is not a step of the runs; ProtocolTheorems.ColdRecordSkipsLog says what it costs.
- int64 overflow of the counted offsets: files are at most 2^63 - 1 bytes long, as the operating system has it, and the counts are unbounded.
- `Bytes()` returning a slice that the next Scan overwrites: lines are values here. The debug print in Commit, `Close`, and the accessors.
- A recorded inode that now names a directory is read as an empty file rather than failing.
- Nobody writes to a file once it was renamed: appends reach the current file only. A writer that keeps its old handle open after a rotation can add lines behind a session that has left that file, and at-least-once then fails.
- A CommitOffset past the start of the last delivered line is not a step of the runs: whether it is harmless depends on that line having had its line feed, which the scanner does not tell. ProtocolTheorems.CommitOffsetSafeExactly says where the limit is.
- In the runs the writer does not add to a half-written line between the Scan that takes it and the session's next Scan; ProtocolTheorems.HeldTailMiscounts says what comes of it when it does.
- `dbm-services/common/offsetlinescanner/scanner.go`: it records the descriptor's read-ahead position, so it keeps no line-exact promise.
- Regular expressions in policy matching are an uninterpreted relation between pattern and text, and errors they raise are not modelled. The queries for policies and clusters are parameters.
- Audit fields, tickets and remarks of pool rows and events; the to-do records, the CMDB, recycling and resource-pool calls around a transfer. The CMDB is taken to return each host asked for once. A transfer is given host ids; the callers that pass their own query of hosts are not modelled.
- HostPool.ReplayExactly: does not cover triggers under a resource-import ticket, because their events are written beforehand by code outside the modelled files.
- The sampled value stored beside each load status.
- Load samples and the quotients under the ceilings are integers and exact; the ends of the time window and the query text are not modelled.
- The match of a business id in a shield description reads ASCII digits only.
- Package records are identified by what update_or_create looks them up by; the medium sync, which could make two of them alike, the upload, and the artifact store's normalising of paths are not modelled. A request is one atomic step but for what a failed batch leaves behind.
- Serializers, permissions, views that only list, and everything else of the repository.
