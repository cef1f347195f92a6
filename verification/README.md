# Verified models of the dracon-system guard

These Dafny 4.11 files model the parts of the guard whose mistakes are expensive: a throttle that outlives its
record, a process left marked for the OOM killer, a directory deleted while someone uses it, a file lost under a
link. Each core is modelled in the form its source has (state machines over durable records, loops over buffers
and work lists, classes for what is updated in place) and its promises are proved for every input, every run or
every reachable state. `dafny verify dfyconfig.toml` checks everything.

## The cores

**CPU-quota leases** (`CpuLimit`, `CpuLimitSafety`, `CpuLimitReplacement`, `CpuLimitRecovery`). One cell per systemd
unit holds the durable lease, the unit's incarnation and live quota, the armed timers, the holder of the per-unit
lock and a capper that has not reached the lock yet. A run is any interleaving of single steps with operator edits,
restarts, unloads, reboots and a crash after any step; a save or a quota write may report failure with or without
its effect. `throttledFrom` is history only: it says that the live quota is in force because the guard wrote it.
Assumed: one capper at a time per unit (the daemon's lock), distinct units have distinct keys, and nothing steps
between the reads that justify a quota write and the write itself, except that the invocation is read before the
lock, as the code does.

**OOM debts of managed jobs** (`OomJob`, `ManagedOom`, `ManagedOomSafety`, `ManagedOomWitness`, `ManagedOomScores`,
`OomDrain`, `OomDrainRun`). The cgroup is a map of processes that fork (the child inherits the score), exit and are
rescored between any two steps of biasing, draining and certification. Assumed, as src/oom_job.rs states: nothing
enters the group from outside and the sentinel does not fork in its final loop. `OomDrain` is one whole drain pass
over the registry of all jobs, and `OomDrainRun` shows it to be a run of the protocol.

**Bounded event log** (`Utf8`, `Events`, `EventLog`, `EventFaults`). Bytes are bytes; UTF-8 follows section 3 of RFC
3629. The reader hands out its stream in any non-empty pieces, and an append can fail at every system call it makes,
after any number of bytes.

**Deletion gate and disk cleaner** (`Lexicographic`, `DiskRefs`, `DeletionGate`, `DiskTmp`, `TempCruft`, `GitTemp`,
`DiskClean`, `DiskApply`). From one reading of /proc to the verdict on a target, from a directory tree to the age of
its newest content, and from a report of findings to the paths removed.

**Policy code** (`EditDistance`, `CommandWords`, `GuardPolicy`). The two-row edit distance, the command splitter
(quoting as in section 2.2 of POSIX.1-2017 XCU) and the normalizer of the policy's numbers and lists.

**Links and forgotten trees** (`LexicalPath`, `Links`, `LinkPolicy`, `ProcTable`, `ForgottenTree`, `ForgottenScan`).
Replacing files by links without losing one, and weighing each orphaned browser tree once.

## Where the code does less than it says

Each of these is kept in the model as the code has it, with a witness and the exact condition under which the code
does meet the property.

- The reconcile branch of `cap_prepared` relies on an invocation read before the lock (src/cpu_limit.rs:377-382),
  so its restore may reach a unit that was replaced meanwhile. `ReconcileReachesItsUnitIff` and
  `EveryWriteReachesItsUnitIff` say on every run exactly when, `ReconcileCanWriteToAReplacement` is such a run,
  `CalmRunWritesOnlyItsOwnIncarnation` the rule that avoids it.
- One recovery pass does not remove every record: one whose unit's load state or invocation cannot be read is kept
  (src/cpu_limit.rs:606-620). `RecoveryCanKeepARecord` is a run that ends so, with the unit still throttled;
  `RecoveryUndoesEveryLease` says exactly which records stay.
- A debt whose job record is of another admission is not only retained, as the comment has it, but drained with the
  baseline of that record (src/managed_oom.rs:49-53): `OneFate`, `Registry.DrainOne`.
- A drained process gets its own score back unless that was the target score: the code takes any 250 in a job with a
  debt for its own (src/managed_oom.rs:395-398, src/oom_restore.rs:52). `ScoresComeBack` holds for every other score,
  and `OwnTargetScoreIsLost` is a run that loses one of 250.
- The deletion gate sees what /proc shows it, not every use. Links it may not read are dropped, and so is a process
  whose descriptor directory cannot be listed (src/disk_refs.rs:221-291), for a target of any name:
  `UnreadableUseIsMissed`. And a target whose own name ends in " (deleted)" is invisible even to processes that show
  it, because links to it are filed under the shorter name (src/disk_refs.rs:330-336). `GateSeesEveryShownUseIff`:
  whatever runs, the gate sees every use exactly when every user shows a link at or under the target, if and only if
  the name does not end so.
- `clean_git_temp_files` refuses owned and fresh scratch, but the second loop of `apply_with_floors` does not look
  at the class (src/disk.rs:1143-1147) and deletes what was refused when no process uses the file itself and it can be
  unlinked; such a file also goes along with a directory finding that contains it. `RefusedScratchGoesIff` says
  exactly when the file is gone; `DeleteOwnedScratch` runs the cleaner on such a report.
- A second normalization is silent exactly when the action level came out above 1, because the unfreeze gate is
  never below 1 (src/policy.rs:1709-1714): `NormalizedIsLegalIff`, `SilentIffLegal`. Three knobs can be reported as
  adjusted although their value is the same afterwards; `NamedIffMoved` says exactly when.
- An append whose write stops inside the record leaves a torn line, the log is then no suffix of the records,
  and the next record runs into the torn one although it is acknowledged: `TornRecordSwallowsTheNext`. From an
  empty log the segments are a contiguous suffix at every moment, whatever else fails, if and only if no write
  stopped so: `AlwaysASuffixIffNoneTorn`. Started from files that were already there, an oversized active segment
  is dropped from between the rotated records and the new one: `AlwaysASuffixIffStartedInBounds`.

## Model

| member | source | states |
|---|---|---|
| `CpuLimitSafety.StepKeepsInv` | src/cpu_limit.rs:368-539 | every single step of capping, releasing, crashing and of the environment keeps the protocol invariant |
| `CpuLimitSafety.RunKeepsInv` | src/cpu_limit.rs:368-577 | so does every run over any number of units, reboots included |
| `CpuLimitSafety.ReachableWorldsKeepInv` | src/cpu_limit.rs:368-577 | every state reachable from one the guard never touched satisfies it |
| `CpuLimitSafety.ThrottledUnitHasDurableLease` | src/cpu_limit.rs:368-483 | in every reachable state a unit throttled by a guard write has a durable lease of the same boot and invocation, armed, with `applied` equal to the live quota and `original` the quota before the write |
| `CpuLimitSafety.EveryWriteIsCompareAndExchange` | src/cpu_limit.rs:391-479 | on every run each quota write compares with the durable lease: `applied` (strictly below `original`) only over `original`, armed and after its timer was seen, `original` only over `applied`; apply and release reach only the leased incarnation |
| `CpuLimitSafety.TimersStopOnlyAfterTheirRecordIsGone` | src/cpu_limit.rs:526-538 | on every run a timer is stopped only when its record is gone |
| `CpuLimitReplacement.RunKeepsReliance` | src/cpu_limit.rs:377-382 | in every reachable state, whatever interleaves, the invocation a capper relies on is that of the live unit exactly when the unit has not restarted since the capper's read |
| `CpuLimitReplacement.ReconcileReachesItsUnitIff` | src/cpu_limit.rs:377-417 | on every run a reconcile restore that writes reaches the leased incarnation if and only if the unit has not restarted since the invocation was read |
| `CpuLimitReplacement.EveryWriteReachesItsUnitIff` | src/cpu_limit.rs:368-539 | on every run all quota writes of a unit reach the leased incarnation if and only if no reconcile restore wrote after such a restart |
| `CpuLimitSafety.CalmRunWritesOnlyItsOwnIncarnation` | src/cpu_limit.rs:377-417 | on every run where no unit is replaced while a capper relies on that read, every write reaches its own incarnation |
| `CpuLimitRecovery.ReconcileCanWriteToAReplacement` | src/cpu_limit.rs:377-417 | a run from a fresh state whose reconcile restore lands on a replaced unit |
| `CpuLimitRecovery.Released` | src/cpu_limit.rs:499-539 | a fault-free release undoes the addressed lease, restoring the quota exactly on a still-owned unit still at `applied`; an obsolete generation, a busy lock or an unverifiable unit changes nothing |
| `CpuLimitRecovery.ReleasedIsARun` | src/cpu_limit.rs:499-539 | that release is a sequence of protocol steps, so the safety theorems cover it |
| `CpuLimitRecovery.LeaseGuard.ReleaseWith` | src/cpu_limit.rs:499-539 | the method's new state is that release, and it errs exactly on a busy lock or an unverifiable unit |
| `CpuLimitRecovery.LeaseGuard.RecoverWith` | src/cpu_limit.rs:553-577 | recovery releases every unit that has a record, in whatever order the directory lists them |
| `CpuLimitRecovery.CrashKeepsInv` | src/cpu_limit.rs:543-577 | losing every process at any moment keeps the invariant |
| `CpuLimitRecovery.RecoveryUndoesEveryLease` | src/cpu_limit.rs:553-620 | from every reachable state, after a crash, one fault-free pass removes and undoes every lease of a unit the manager can identify, leaves no other guard throttle and changes no other quota |
| `CpuLimitRecovery.RecoveryCanKeepARecord` | src/cpu_limit.rs:553-620 | a run from a fresh state after which crash and recovery leave the record, the throttle and the quota as they were |
| `CpuLimitRecovery.RecoveryIsIdempotent` | src/cpu_limit.rs:553-577 | a second pass changes nothing |
| `CpuLimitRecovery.CapThenReleaseRestoresTheUnit` | src/cpu_limit.rs:368-539 | at any clock, an undisturbed cap that writes before its lease is over throttles to the percentage under an armed lease that ends so many seconds after it was built, and releasing it gives back the unit, record and timers |
| `CpuLimitRecovery.LateCapWritesNothing` | src/cpu_limit.rs:471-479 | one that comes to write at or after the end of its lease leaves the unit as it is |
| `CpuLimitRecovery.DeadTimerStopsTheCap` | src/cpu_limit.rs:448-460 | so does one whose timer is gone when it looks for it, and its record is not marked armed |
| `CpuLimitRecovery.InvalidCapWritesNothing` | src/cpu_limit.rs:461-470 | so does one whose workload fails the check |
| `CpuLimitRecovery.StricterUnitIsLeft` | src/cpu_limit.rs:418-422 | a unit with an equal or stricter quota gets no record, timer or write |
| `CpuLimitRecovery.InactiveUnitIsLeft` | src/cpu_limit.rs:377-380 | whatever cappers do, a unit that is not active or has no invocation changes in nothing |
| `CpuLimitRecovery.FoundRecordIsReconciled` | src/cpu_limit.rs:383-417 | a record found: a throttle with an armed mark, a live timer and time left is kept; one without is undone and its record goes; an intent never applied is dropped; any other quota and its record are not touched |
| `CpuLimitRecovery.StaleRecordIsDropped` | src/cpu_limit.rs:384-390 | the record of another boot or invocation goes and the unit is not touched |
| `ManagedOomSafety.StepKeepsInv` | src/managed_oom.rs:308-556 | every step of bias, drain, certification and of the processes keeps the invariant, whatever save lies about its effect |
| `ManagedOomSafety.RecordsOnlyMoveForward` | src/managed_oom.rs:308-556 | between any two moments of any run the phase only advances, draining never reverts and the admission never changes |
| `ManagedOomSafety.TerminalProofMeansOnlyTheSentinel` | src/oom_job.rs:396-421 | once the record carries the terminal proof, every later state holds at most the never-biased sentinel, although members and task count were read at different instants |
| `ManagedOomSafety.BiasedProcessesAreCovered` | src/managed_oom.rs:308-428 | in every reachable state each process biased by the guard or by inheritance is covered by a live debt of the same admission |
| `ManagedOomSafety.EveryBiasWriteIsCovered` | src/managed_oom.rs:308-428 | on every run a bias is written only over the admitted baseline as read under the lock, with the sentinel alive, the recoverer armed, and under a durable, undrained debt of an active, uncertified job that ends 120 seconds after the clock was read, and never to the sentinel |
| `ManagedOomSafety.CandidateOnlyOnFullEvidence` | src/oom_job.rs:283-285 | the sentinel becomes a candidate exactly on itself as only member, one task and one thread of its own |
| `ManagedOomScores.ScoresComeBack` | src/managed_oom.rs:395-398 | between any two moments in which nobody else rescores it, a process that was not biased has its own score again, or is biased and its own was the baseline; processes whose own score is 250 excepted |
| `ManagedOomScores.OwnTargetScoreIsLost` | src/oom_restore.rs:34-75 | a run that drains a process which chose 250 itself |
| `ManagedOomSafety.RetiredDebtLeavesNoBias` | src/managed_oom.rs:146-166 | a retired debt leaves no biased process behind, whatever happens afterwards |
| `ManagedOomWitness.DebtCanBeIncurredAndRetired` | src/managed_oom.rs:308-428 | from every admission there is a run in which the guard biases a process and later the debt is retired with the proof published |
| `ManagedOomWitness.SecondRequestOnlyRenews` | src/managed_oom.rs:399-416 | biasing a process that reads 250 already moves the deadline and nothing else |
| `OomDrain.Registry.RestoreMembers` | src/managed_oom.rs:516-548 | the pass rewrites exactly the reached members that read 250, up to the first living one that fails before its write or cannot be verified after it, and fails exactly then |
| `OomDrain.Registry.DrainOne` | src/managed_oom.rs:468-556 | it fails exactly on a held lock, a missing job record, another admission than expected, or a conflicting retirement, and then changes nothing; otherwise the facts decide whether the debt is archived, retired, held or drained, and each case gives the job, the debt with its error flag, the retirement and the scores; every other generation's records stay |
| `OomDrain.OneFate` | src/managed_oom.rs:45-61 | for every job and debt exactly one of archiving, retiring, draining and waiting is due, in terms of boot, admission, proof, force, deadline and mark |
| `OomDrain.PassReachesTheFirstListed` | src/managed_oom.rs:516-520 | no pass writes to a process beyond the first 256 listed |
| `OomDrain.CleanPassLeavesNoMemberAtTarget` | src/managed_oom.rs:516-548 | with at most 256 members listed and none failing, no listed member but the sentinel keeps 250, and only those that read 250 were written |
| `OomDrainRun.DrainPassIsARun` | src/managed_oom.rs:468-556 | every pass that drains, whatever /proc shows it, is a run of the protocol to the same records and scores, so the safety theorems cover it |
| `Utf8.TruncateUtf8` | src/events.rs:62-81 | fits the limit, stays valid text, is cut at the last boundary that leaves room for the ellipsis, and loses fewer than four bytes to the boundary |
| `Utf8.BoundaryNearby` | src/events.rs:62-81 | in valid text a character boundary lies within four bytes below any position |
| `Utf8.ValidIsEncoded` | src/events.rs:323-343 | text is accepted only if it encodes Unicode scalar values as RFC 3629 says |
| `Utf8.EncodedIsValid` | src/events.rs:323-343 | and all such text is accepted |
| `Events.Suffix` | src/events.rs:265-281 | the longest suffix of the lines within the count and byte bounds |
| `Events.SuffixIsUnique` | src/events.rs:265-281 | a suffix that fits and cannot be extended is that one |
| `Events.SuffixOfSuffix` | src/events.rs:265-281 | dropping early and dropping late keep the same lines |
| `Events.TailIsFull` | src/events.rs:265-281 | the tail keeps to the line limit and 10 MiB, and one line more would exceed one of them |
| `Events.KeptAre` | src/events.rs:298-350 | kept are exactly the raw lines of at most 64 KiB whose text less one carriage return is UTF-8 |
| `Events.Tail.RetainEventLine` | src/events.rs:265-281 | the retained deque is the longest suffix within bounds of what it held and the new line |
| `Events.DiscardPartialLine` | src/events.rs:283-296 | skips to just after the first newline, however the stream is cut |
| `Events.ReadTailFromReader` | src/events.rs:298-350 | for every way of cutting the stream into buffers: the count is the number of newline-separated lines and the tail is the longest suffix of those short enough and valid, less one trailing carriage return |
| `EventLog.EventFiles.PersistEvent` | src/events.rs:146-206 | the exact segments and answer for a failure at any point, after any number of bytes; a success leaves the whole record and both segments within 10 MiB, and no failure makes a segment grow past the bound |
| `EventLog.AttemptSucceedsIff` | src/events.rs:155-206 | an append succeeds exactly when the record is small enough and nothing fails that it needs |
| `EventLog.AttemptInPlainTerms` | src/events.rs:155-206 | what each failure leaves of the two segments, byte by byte |
| `EventLog.LogHoldsASuffix` | src/events.rs:146-206 | after any appends from an empty log the two segments encode a contiguous suffix of the records, and once anything rotated the rotated one holds more than 10 MiB less 65,537 bytes |
| `EventFaults.AlwaysASuffixIffNoneTorn` | src/events.rs:146-206 | over every run of attempts with arbitrary failures from an empty log, the segments are at every moment a contiguous suffix of the records written whole, if and only if no write stopped inside a record |
| `EventFaults.TornRecordSwallowsTheNext` | src/events.rs:191-194 | a record torn after one byte and the acknowledged one after it read back as a single line that is neither |
| `EventFaults.AlwaysASuffixIffStartedInBounds` | src/events.rs:163-192 | started from files holding any records, successful appends keep a contiguous suffix of those and the new ones, if and only if the active file fits, or the rotated one does not either, or the rotated records end the active ones |
| `EventLog.SplitInvertsEncode` | src/events.rs:298-350 | splitting a segment of records gives the records back |
| `EventLog.WindowStartsALine` | src/events.rs:353-408 | a segment within 10 MiB is read whole; of a longer one, what follows the first newline of its last 10 MiB |
| `EventLog.ReadTailSegments` | src/events.rs:353-408 | reads both segments in order into one bounded tail |
| `EventLog.TailOfLogIsTheLongestSuffix` | src/events.rs:353-408 | reading a log back gives the longest suffix of the records it holds within `min(tail, 1000)` lines and 10 MiB |
| `DiskRefs.Read` | src/disk_refs.rs:221-291 | the index is the one built from every readable executable, directory and descriptor link, in order |
| `DiskRefs.IndexIsFaithful` | src/disk_refs.rs:221-291 | it is sorted, and under every target holds exactly the rows /proc showed there, with multiplicity |
| `DiskRefs.SubtreeIsOneRun` | src/disk_refs.rs:294-326 | under any order of components, nothing sorted after the first path past a subtree lies in it |
| `DiskRefs.TextOrderSplitsASubtree` | src/disk_refs.rs:310-316 | plain text order would put a sibling between a directory and its contents |
| `DiskRefs.Capture` | src/disk_refs.rs:294-326 | the exact hit and the range scan that breaks early return what filtering the whole index returns |
| `DiskRefs.StripDropsOneSuffix` | src/disk_refs.rs:330-336 | one " (deleted)" goes from the last component, and nothing else changes |
| `DeletionGate.MergedByPid` | src/disk_refs.rs:170-199 | one row per pid, with its first executable and directory and the set of its descriptors |
| `DeletionGate.FirstMeansFirst` | src/disk_refs.rs:170-199 | the merged executable and directory are the first that any row of the process shows |
| `DeletionGate.MergeKeepsBlockers` | src/disk_refs.rs:85-97 | when the rows of a pid agree, merging keeps the set of processes that forbid the deletion |
| `DeletionGate.CapturedRowsAgree` | src/disk_refs.rs:221-291 | the rows captured from one reading of /proc do agree |
| `DeletionGate.Check` | src/disk_refs.rs:85-118 | the pids named are exactly the processes that block the target, and an unreadable /proc is never evidence of disuse |
| `DeletionGate.SeenUseForbids` | src/disk_refs.rs:85-118 | a use that is seen forbids the deletion |
| `DeletionGate.BlockedIffShown` | src/disk_refs.rs:36-50 | for a target not named "... (deleted)", a process blocks it exactly when /proc shows its executable, directory or an open file at or under it, unlinked or not |
| `DeletionGate.GateSeesEveryShownUseIff` | src/disk_refs.rs:330-336 | over all process tables, every use is seen exactly when every user shows it, if and only if the target's own name does not end in " (deleted)" |
| `DeletionGate.UnreadableUseIsMissed` | src/disk_refs.rs:221-291 | a process that holds the target open and whose links cannot be read does not stop the deletion of any target |
| `DiskTmp.AgeIsWholeHours` | src/disk_tmp.rs:81-85 | an age of h hours means a time between h and h + 1 times 3600 seconds back; a time in the future has none |
| `DiskTmp.DirectoryBytesAndAge` | src/disk_tmp.rs:280-336 | the stack walk gives the size and the age of the newest time of the recursive fold over the tree, or no age past 200,000 entries |
| `DiskTmp.AgeProvesOldContent` | src/disk_tmp.rs:280-336 | an age of at least `h` hours is given if and only if the tree has at most 200,000 entries, everything but links was read and lies at least `h` times 3600 seconds back, and something is dated (an empty tree stands on its own time) |
| `DiskTmp.FoldAllTotalsBytes` | src/disk_tmp.rs:280-336 | the fold's total is the sum of the sizes of all files below |
| `DiskTmp.DirectoryBytesAndAgeParallel` | src/disk_tmp.rs:239-271 | whatever the number of workers, each slot gets its own root's measurement |
| `TempCruft.FindTempCruft` | src/disk_tmp.rs:118-180 | one entry for each old top-level file or directory, in order, each with its own age and, for a directory, the measurement of its own tree |
| `TempCruft.ReportedIff` | src/disk_tmp.rs:126-156 | reported are exactly the files and directories, no links, of readable roots whose own time lies that many hours back |
| `GitTemp.GitOwnerFor` | src/git_temp.rs:291-299 | the first packing git that works at or below the repository, and none exactly when there is none |
| `GitTemp.OwnerOf` | src/disk.rs:1122-1125 | a scratch file is found owned exactly when a packer works in the repository its path names |
| `GitTemp.ScratchBelongsToItsRepo` | src/git_temp.rs:306-319 | any path below `<repo>/.git` without a further `.git` names that repository |
| `GitTemp.NoRepoUnlessGit` | src/git_temp.rs:306-319 | a path with no `.git`, or only one at its front, names no repository |
| `GitTemp.CleanGitTempFiles` | src/git_temp.rs:326-355 | a dry run and a real run classify owned and fresh candidates identically; a real run deletes exactly the clear ones that can be unlinked and counts their bytes |
| `GitTemp.EachCandidateIsClassedOnce` | src/git_temp.rs:326-355 | owned, fresh and clear share the candidates out |
| `GitTemp.ClassesInPlainTerms` | src/git_temp.rs:326-355 | owned, fresh and clear in terms of the owner and of the age that was read |
| `GitTemp.OnlyClearScratchGoes` | src/git_temp.rs:326-355 | a path disappears only for a candidate that no packer owns and that is old enough |
| `GitTemp.RealRunIsWithinTheDryRun` | src/git_temp.rs:321-355 | a real run deletes only what a dry run lists, and all of it that can be unlinked |
| `DiskClean.SweepOne` | src/disk.rs:1143-1220 | a finding is removed exactly when it is APPLY, unused, present, removable and, for a directory, read to its end with nothing younger than its floor; otherwise it stays, a directory that is not idle as REPORT and any other that was APPLY as SKIP |
| `DiskClean.Sweep` | src/disk.rs:1140-1223 | the loop shares the findings out between records and report, and on distinct paths leaves exactly the nodes that no finding takes (whatever their order) and records exactly the findings that may and can go and that no directory before them took along |
| `DiskApply.RecordCleaned` | src/disk.rs:1126-1138 | each scratch file the cleaner deleted moves from the report to the records with its bytes |
| `DiskApply.DiskReport.ApplyWithFloors` | src/disk.rs:1079-1224 | with distinct paths, nested or not, the store and the report afterwards are given exactly; every finding ends as one record or one remaining finding, freed equals the bytes recorded, none is left APPLY, nothing changes without licence, each record is of clear scratch or of a permitted finding, and the records are exactly the deletions made |
| `DiskApply.SweptListAt` | src/disk.rs:1140-1223 | position by position: a finding is recorded exactly when it may and can go and no directory before it took it along |
| `DiskApply.LeftForReportIff` | src/disk.rs:1143-1220 | a finding that is left was REPORT, or is an unused directory, still standing at its turn, that was not idle |
| `DiskApply.CleanedInPlainTerms` | src/disk.rs:1079-1138 | the git cleaner takes exactly APPLY git scratch that can be unlinked, is old enough by the age read again, and in whose repository no packer works |
| `DiskApply.SweptInPlainTerms` | src/disk.rs:1143-1220 | the second loop takes exactly what is APPLY, there, removable, blocked by no process and, if a directory, within the entry limit and old |
| `DiskApply.GoneIffRecordedOrTakenAlong` | src/disk.rs:1079-1224 | a finding that stood there is gone after the run exactly when it is recorded or a directory took it along |
| `DiskApply.NoFreshTreeIsTouched` | src/disk.rs:1153-1202 | a directory with unreadable content, content younger than its floor, or no floor is never recorded, and is left as it was unless a permitted finding contains it |
| `DiskApply.WhatGoesAlongIsOld` | src/disk.rs:1153-1202 | in one file system whatever changed was clear scratch, a permitted finding itself, or at least as old as the floor of the permitted directory, standing in the store, that contained it |
| `DiskApply.RefusedScratchGoesIff` | src/disk.rs:1143-1147 | scratch refused as owned or fresh is gone after the run exactly when no process uses the file and it can be unlinked, or a directory finding took it along |
| `DiskApply.DeleteOwnedScratch` | src/disk.rs:1143-1147 | a call of the cleaner on a report of one scratch file, in whose repository a packer works, after which the file is gone from the store and recorded |
| `EditDistance.EditDistance` | src/policy.rs:2206-2220 | the two-row loop computes the recurrence |
| `EditDistance.EnoughEdits` | src/policy.rs:2206-2220 | that many single-character edits lead from one word to the other |
| `EditDistance.NoFewerEdits` | src/policy.rs:2206-2220 | and no shorter chain of edits does |
| `EditDistance.Symmetric` | src/policy.rs:2206-2220 | the distance is symmetric |
| `EditDistance.ZeroIffEqual` | src/policy.rs:2206-2220 | it is zero exactly between equal words |
| `EditDistance.Triangle` | src/policy.rs:2206-2220 | it satisfies the triangle inequality |
| `CommandWords.SplitCommandWords` | src/policy.rs:999-1066 | the nested loops compute the quoting automaton, errors included |
| `CommandWords.SplitInvertsPrinting` | src/policy.rs:990-1066 | splitting a line printed with any legal mix of plain, escaped, continued, single- and double-quoted pieces, separated by any white space, gives the words back; between double quotes a backslash escapes four characters, vanishes before a newline, and stays before any other |
| `CommandWords.OpenEndsAreRefused` | src/policy.rs:1012-1056 | after any complete words and pieces, a quote or an escape left open is refused with the error that says which |
| `CommandWords.AnyWordsSurviveQuoting` | src/policy.rs:990-1066 | every list of words whatsoever survives quoting, joining with spaces and splitting |
| `CommandWords.NoWordsIffBlank` | src/policy.rs:999-1066 | splitting gives no words exactly for blank input |
| `CommandWords.Parse` | src/policy.rs:1075-1101 | taking the first word cannot fail; each error arises exactly in its case, and a command is its split words |
| `CommandWords.TrimTakesTheEnds` | src/policy.rs:1076 | trimming takes white space from the two ends and nothing else |
| `GuardPolicy.Guard.Normalize` | src/policy.rs:1576-1843 | every numeric and list knob takes its normal value, and the report names exactly the knobs that were moved, in order |
| `GuardPolicy.Guard.NormalizeTwice` | src/policy.rs:1576-1843 | a second pass changes nothing and is silent exactly when the action level came out above 1 |
| `GuardPolicy.NormalizationIsAFixpoint` | src/policy.rs:1576-1843 | normalization is a fixpoint on every policy, NaN and infinities included |
| `GuardPolicy.NormalizedIsInRange` | src/policy.rs:1660-1825 | 1 <= early <= warn <= action <= critical <= 100, stuck >= sustain >= 5, and every section but the gates legal |
| `GuardPolicy.DiskMovesLeast` | src/policy.rs:1666-1719 | each disk level and percentage becomes the nearest that the levels settled before it allow |
| `GuardPolicy.ProcessMovesLeast` | src/policy.rs:1724-1746 | each process knob becomes the nearest legal value; a NaN goes to the lower end, an infinity to its own |
| `GuardPolicy.MemoryAndGrowthMoveLeast` | src/policy.rs:1748-1781 | so does each memory and growth knob |
| `GuardPolicy.OthersMoveLeast` | src/policy.rs:1661-1664 | and each cadence, logging and cleanup knob |
| `GuardPolicy.NamedIffMoved` | src/policy.rs:1576-1843 | a knob is reported exactly when its value changed (of a list, an entry was dropped), or in one of three cases in vain |
| `GuardPolicy.NormalizedIsLegalIff` | src/policy.rs:1660-1710 | the normal form is legal exactly when its action level exceeds 1, that is when the file's warning or action level does |
| `GuardPolicy.SilentIffLegal` | src/policy.rs:1576-1843 | a pass reports nothing exactly on legal policies |
| `GuardPolicy.LegalPoliciesAreKept` | src/policy.rs:1576-1843 | a legal policy keeps every value; only its lists are put in order |
| `GuardPolicy.ShortlistKeepsTheSmallest` | src/policy.rs:1757-1778 | a bounded list keeps its smallest distinct entries and drops none while there is room |
| `Lexicographic.FirstDifferenceDecides` | src/policy.rs:1761-1764 | the order of the lists is by the first character that differs, prefixes first |
| `LexicalPath.LexicalNormalize` | src/links.rs:78-98 | the push and pop loop computes the fold |
| `LexicalPath.NormalizesToNormalForm` | src/links.rs:78-98 | no `.` and no collapsible `..` remain, and exactly the paths without them are left as they are |
| `LexicalPath.NormalizingKeepsThePlace` | src/links.rs:78-98 | without links in the way a path and its normal form lead to the same place from every directory |
| `Links.UniqueBackupPath` | src/links.rs:171-179 | the first free name, found after at most one try for each name taken |
| `Links.CandidatesDiffer` | src/links.rs:171-179 | numbered names never coincide |
| `Links.NamesInOrder` | src/links.rs:171-179 | the first name tried is the plain one, the others end in a dash and their number |
| `Links.RenameBack` | src/links.rs:221-232 | renaming a tree to a free path and back restores the file system |
| `LinkPolicy.FileSystem.ApplyOneLink` | src/links.rs:249-314 | the exact nodes and answer for every combination of failing calls; everything but a replaced link is still there, at its path or under the fresh backup name, nothing else is new but the link and directories leading to it; an entry without a target or that is settled changes no node, a link in sync or not unlinked stays, and success means the link is made unless it was settled |
| `LinkPolicy.LinkedIsApplied` | src/links.rs:249-314 | an entry succeeds exactly when its target is missing or no call that it needs fails, and leaves a file under a backup name only if it succeeded or putting it back failed too |
| `LinkPolicy.FailedEntryIsUndone` | src/links.rs:220-232 | a failed entry whose restore works leaves everything at its own path, but for a link that was to be replaced |
| `LinkPolicy.ApplyLinkPolicy` | src/links.rs:198-213 | each entry does to the nodes the ones before it left exactly what it does alone, the failures are named, and every regular file keeps its bytes at its path or under a backup, no two in one place |
| `LinkPolicy.EveryEntryGetsItsTurn` | src/links.rs:198-213 | whatever became of the entries before it, an entry succeeds exactly when no call that it needs fails, and then its link is made; settled, it changes no node |
| `LinkPolicy.SettledRunChangesNothing` | src/links.rs:279-281 | a run over entries that are all settled, such as a second one over links in sync, changes no node |
| `LinkPolicy.BackupIsNamedAfterTheLink` | src/links.rs:147-166 | a backup stands beside the link, under its name, the mark and the time, numbered only if that is taken |
| `LinkPolicy.UnforcedFilesStay` | src/links.rs:286-298 | without force no file moves |
| `ProcTable.Descendants` | src/reap.rs:335-362 | each process below the root exactly once, after its parent and one level deeper, in order of depth, each at the length of a shortest chain, whatever cycles the table has |
| `ForgottenTree.BuildTree` | src/forgotten.rs:496-609 | distinct members: the root and whatever is below it or handles its crashes and is not the operator's; each at its depth with its weight, the aggregate being the saturated sum |
| `ForgottenTree.Aggregate` | src/forgotten.rs:589-592 | adding with saturation at every step is saturating the sum |
| `ForgottenTree.TreeWeighsResidentAndSwapped` | src/forgotten.rs:518-592 | each member weighs its resident and swapped memory capped at 64 bits, the tree their sum capped again |
| `ForgottenTree.MembersInPlainTerms` | src/forgotten.rs:496-609 | who is a member and at what depth, in terms of descent, handler names, orphans and exempt names |
| `ForgottenTree.ExemptIffNamedOrDashed` | src/reap.rs:288-298 | an exempt name covers itself and what continues it after a dash |
| `ForgottenScan.Roots` | src/forgotten.rs:663-712 | exactly the eligible roots, by rising pid, in whatever order the table lists them |
| `ForgottenScan.ScanForgottenOrphanTrees` | src/forgotten.rs:649-835 | an eligible root has a tree weighed exactly when it is a browser and no earlier tree holds it, and the three lists are the weighed trees by their destination |
| `ForgottenScan.EachRootIsListedAtMostOnce` | src/forgotten.rs:714-826 | each process is the root of at most one entry over the three lists |
| `ForgottenScan.EveryHeavyTreeIsDecidedOnce` | src/forgotten.rs:714-826 | every eligible browser root held by no earlier tree is listed exactly once if its tree meets a floor, and not at all otherwise |
| `ForgottenScan.ListsByVerdictAndUse` | src/forgotten.rs:714-826 | vetoed are the heavy desktop trees; protected the heavy test trees that are driven, or cannot be driven and were busy; candidates the other heavy test trees |
| `ForgottenScan.CandidatesAreIdleTestTrees` | src/forgotten.rs:663-826 | a tree is a candidate exactly when it was weighed, meets a floor, is a test job and is undriven, or cannot be driven and was idle; its root is an orphan without a terminal, asleep, at least 300 seconds old and not exempt, and no other member is the operator's |

## Left out

- systemd, busctl, /proc, locks, fsync and serde: reads and writes are atomic steps on maps, and the failures they
  allow are choices of the run or parameters of the method.
- `quota_value`, `isolated_scope`, `expiry_args`, launcher construction, `ensure_recoverer`, `restore_legacy`,
  `create_probe_scope`: plumbing around the protocols.
- `reconcile_orphan`, and the file that `archive_previous_boot` copies a debt to: in the model a debt of an earlier
  boot is simply gone, with every process of that boot.
- CpuLimitRecovery.CapThenReleaseRestoresTheUnit: does not model the saturation of the clock plus the lease time at 64 bits.
- Two cappers at once for one unit, and two units whose keys collide: excluded by the assumptions above.
- OomDrain.Registry.DrainOne: does not model a save that fails in the middle of a pass; `ManagedOom` does, one save at a time. Counters and clock sums are unbounded where the code saturates at 64 bits.
- Events.ReadTailFromReader: does not model a read error, which ends the call with that error.
- EventLog.EventFiles.PersistEvent: does not model the lock file itself, only that it may fail before or after the append, nor the branch that replaces an existing rotated file on systems whose rename does not.
- The order of captured rows, of found entries and of the three result lists: the final sorts are left out, and the
  results are stated in the order before them or up to order.
- DeletionGate.UnreadableUseIsMissed: a process that /proc does not list at all is not in the table; it is missed like an unreadable one.
- DeletionGate.Check: does not model the wording, which shows the first four of the blocking pids.
- Paths that are not UTF-8: components are strings.
- DiskApply.DiskReport.ApplyWithFloors: does not model reasons and captures carried for the reader, and takes one clock reading for the whole run; what a failed recursive removal has already taken below the directory is the world's choice, but the trees of the entries it leaves there are held as they were. Without distinct paths one record may stand for several findings.
- GitTemp.Store: trees are held by path, so removing a nested path changes neither the tree held at its ancestor nor the times of its ancestors; `WhatGoesAlongIsOld` ties a child to its parent's listing at the start of the run only.
- `find_git_temp_files`, `live_git_owners` and the command lines that count as packing: which candidates and which
  owners there are is input.
- Concurrent writers between a check and a removal, and directory entries lost during iteration.
- DiskTmp.DirectoryBytesAndAgeParallel: does not model threads; the chunks are written one after another, each by a method that can write only its own slots.
- GuardPolicy.Guard.Normalize: does not model string knobs, home-directory expansion or the two zeros of floating point; switches that are never normalized are not fields.
- `clamp_report_decision`, `hint_for` and `normalize_storage_policy`: a case or two each.
- CommandWords.Parse: does not model which file names are forbidden; the test is a parameter.
- Symbolic links among the parents of a link path, and the relative path of a link without a parent: the file system of `Links` maps resolved paths.
- Links.UniqueBackupPath: does not model the 32-bit width of the counter.
- LinkPolicy.FileSystem.ApplyOneLink: does not model how a link is found in sync or safe to replace; both are answers of the world.
- `classify_desktop_session`, `tree_usage`, the meaning of command lines and TCP tables: verdict, usage, "is a browser" and the crashpad handler named are input.
- Caches, swap checks, strays, tables and reports of src/disk.rs; src/doctor.rs, src/print.rs, src/safety.rs, zram,
  setup and relocation: display, input/output or one-branch logic that would only add easy members.
