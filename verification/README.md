# G-Manager: models and proofs

This project models the parts of G-Manager in which a mistake is hardest to see, and proves what they are for:

- **The station client** (`client/`): signed session leases, an ordered command log with acknowledgements, a physical-lock
  obligation that survives restarts, a trusted clock, and a Windows policy that must be closed when the entitlement is gone.
  `StationProtocol.dfy` is the state machine over memory, snapshot file, server and enforcer. Its actions are the critical
  sections of `stateSync`, the network exchanges and the snapshot writes; `Tick` may run between any two of them and a crash
  may follow any of them. `StationSafety`, `StationTruth`, `StationHistory` and `StationObligations` prove the theorems over
  every run, and `StationPrecision` says exactly when each critical section acts. `ClientRuntime.dfy` is the object itself, with its fields and flows: each critical section is proved equal to one
  action of the machine, and each flow is proved to be a run of it, so the theorems hold of the code's own control flow. Each
  flow is also proved to do its work when no foreign call fails.
- **The policy enforcer's cache** (`PolicyEnforcer.dfy`), through failures and rolled-back updates.
- **The calendar**: columns and lanes (`LaneLayout`, `WeeklyEvents`, `Timeline`), closed time (`Timeline`), and the weekly
  axis across clock changes (`WeeklyAxis`).
- **The audit view**: the recursive difference of two JSON snapshots and the line printer (`AuditDiff`,
  `AuditDiffProperties`, `AuditDiffOrder`, `SnapshotLines`, `SnapshotLinesProperties`, `JsonPointer`).
- **Server-sent events**: incremental framing and delivery (`SseFraming`, `SseEvents`).
- **Money**: idempotent financial commands (`FinancialCommand`) and exact prices (`ExactMoney`).

`Options`, `Sequences`, `Numerals` and `StableSort` hold what several modules share. `dafny verify dfyconfig.toml` checks
everything.

## What the proofs found

Some promises hold of the code only under a condition. Each condition below is proved exact or has a concrete run against its absence.

- *Acknowledged is durable* is broken by exactly one kind of step, an acknowledgement after a failed write of its number
  (`StepDurability`, `RunDurability`). It happens when the write fails inside a login: `Handle` locks and goes on, and the next
  `Refresh` acknowledges a number that is not on disk (`FailedSaveIsAcknowledged`).
- *A lock acknowledgement is true* is broken by exactly two kinds of step (`StepTruth`, `RunTruth`). Besides logins that arrive only while
  the view is not Active, and leases that replace an active session only with a lock command ahead, two more conditions are
  needed: leaving maintenance must not fail to write its file while the policy is active
  (`UnwrittenMaintenanceExitIsDishonest`), and a deadline inside a login must not meet a process that cannot be stopped
  (`UnstoppedLoginIsDishonest`).
- *Entitlement* at the level of Windows itself fails exactly when a Tick stalls at the early return of `ShowAssignment` while
  Windows still allows something, which is possible only with an unverified enforcer (`WindowsEntitlementIff`); a run reaches
  that state (`UnverifiedWindowsMayStayOpen`).
- The trusted clock's constructor reads the wall clock twice; it starts at or above the floor unless the wall clock is stepped
  back below the floor between the two reads (`StartsAtOrAboveFloor`).
- The weekly axis is in time order exactly when clocks are not put back by more than one hour within the day
  (`IncreaseIffAtMostOneHourBack`).
- SSE framing does not depend on the cuts exactly when the text holds no CR CR LF (`ChunkInvariantIff`); with one, the emitted
  data can differ (`CutChangesData`).
- A financial command that is refused takes effect exactly when an earlier transmission of it reaches the server after the
  refusal (`StepIdle`, `ReportIsTruth`), and such runs exist (`LateDeliveryAfterRejection`).

## Model

| member | source | states |
|---|---|---|
| Leases.UnlockedMeansEntitled | client/src/GManager.Client.Service/SessionLeaseRuntime.cs:44 | for every lease that passes the field checks, "need not lock" holds exactly when an ACTIVE session exists and now < grace end = expiry ≤ session end |
| Leases.UnlockedExactly | client/src/GManager.Client.Service/SessionLeaseRuntime.cs:44 | for any lease at all, exactly when it need not lock |
| TrustedClock.TrustedLeaseClock.constructor | client/src/GManager.Client.Service/SessionLeaseRuntime.cs:13 | the clock starts at the wall clock if it read above the floor, else at the floor |
| TrustedClock.TrustedLeaseClock.Now | client/src/GManager.Client.Service/SessionLeaseRuntime.cs:14 | the anchor plus the monotonic time elapsed |
| TrustedClock.TrustedLeaseClock.Observe | client/src/GManager.Client.Service/SessionLeaseRuntime.cs:15 | verified server time only moves the clock forward |
| TrustedClock.StartsAtOrAboveFloor | client/src/GManager.Client.Service/SessionLeaseRuntime.cs:13 | the exact condition, over both wall clock reads, for starting at or above the saved floor |
| TrustedClock.SingleReadStartsAtMaximum | client/src/GManager.Client.Service/SessionLeaseRuntime.cs:13 | with one read the clock starts at the later of floor and wall clock |
| TrustedClock.ExpiredStaysExpired | client/src/GManager.Client.Service/SessionLeaseRuntime.cs:44 | a lease that must lock at one trusted time must lock at every later one |
| PolicyEnforcement.CallKeepsCoherence | client/src/GManager.Client.Service/StationPolicyEnforcer.cs:22-107 | every call, successful or failing anywhere, keeps the cache coherent with Windows and never lowers the version |
| PolicyEnforcement.HistoryKeepsCoherence | client/src/GManager.Client.Service/StationPolicyEnforcer.cs:22-107 | the same for every sequence of calls |
| PolicyEnforcement.CacheCoherence | client/src/GManager.Client.Service/StationPolicyEnforcer.cs:64-107 | from a new process, whatever Windows held: a cached value is the wanted one and Windows holds exactly the corresponding list |
| PolicyEnforcement.ShortcutIsARealApply | client/src/GManager.Client.Service/StationPolicyEnforcer.cs:97 | the early return is taken exactly when a real, successful apply would change nothing |
| PolicyEnforcement.ActiveMeansListed | client/src/GManager.Client.Service/StationPolicyEnforcer.cs:93-103 | exactly when SetSessionActive succeeds, and that Windows is then left with exactly the programs of the allowed applications, or none |
| PolicyEnforcement.UpdateOutcome | client/src/GManager.Client.Service/StationPolicyEnforcer.cs:54-76 | exactly when an update succeeds; a newer policy then replaces the version and the applications, and Windows holds its programs while a session is active |
| PolicyEnforcement.IdentityOutcome | client/src/GManager.Client.Service/StationPolicyEnforcer.cs:22-29 | the check fails exactly for a verified enforcer whose service does not run, and then nothing is trusted |
| PolicyEnforcement.FailedUpdateRollsBack | client/src/GManager.Client.Service/StationPolicyEnforcer.cs:64-83 | a failed update restores the allowed set, keeps the version and forces the next apply to run the script |
| PolicyEnforcement.UpdateOpensNothing | client/src/GManager.Client.Service/StationPolicyEnforcer.cs:67-83 | an update, wherever it falls, keeps the session flag and leaves a closed list closed while the flag is off |
| PolicyEnforcement.StationPolicyEnforcer.ApplyOsPolicy | client/src/GManager.Client.Service/StationPolicyEnforcer.cs:150-175 | the object's fields and Windows after each way the script can end |
| PolicyEnforcement.StationPolicyEnforcer.SetSessionActive | client/src/GManager.Client.Service/StationPolicyEnforcer.cs:93-103 | the object takes exactly the specified transition, including the failure path |
| PolicyEnforcement.StationPolicyEnforcer.ReapplyLocked | client/src/GManager.Client.Service/StationPolicyEnforcer.cs:104-107 | the cache is dropped and the empty list applied |
| PolicyEnforcement.StationPolicyEnforcer.CheckApplicationIdentity | client/src/GManager.Client.Service/StationPolicyEnforcer.cs:22-29 | a stopped identity service voids verification and cache |
| PolicyEnforcement.StationPolicyEnforcer.ApplyPolicy | client/src/GManager.Client.Service/StationPolicyEnforcer.cs:39-84 | the update with its version tests, in-place refill and rollback |
| PolicyEnforcement.StationPolicyEnforcer.Refill | client/src/GManager.Client.Service/StationPolicyEnforcer.cs:72 | clearing and adding succeeds exactly for distinct codes, and then holds exactly the policy's applications |
| PolicyEnforcement.StationPolicyEnforcer.Launch | client/src/GManager.Client.Service/StationPolicyEnforcer.cs:109-117 | exactly when a program is handed out, and that it is on the list Windows holds |
| StationSafety.LockLocalKeeps | client/src/GManager.Client.Service/ClientRuntime.cs:372-392 | the local lock keeps the desk invariant; if it ends normally the view is locked and Windows allows nothing |
| StationSafety.TickKeeps | client/src/GManager.Client.Service/ClientRuntime.cs:66-105 | every Tick, normal or failing, keeps the invariant; a normal one outside maintenance leaves the policy active only under a lease that need not lock |
| StationSafety.ApplyLeaseKeeps | client/src/GManager.Client.Service/ClientRuntime.cs:357-371 | applying a lease keeps the invariant and never activates the policy or enters Active |
| StationSafety.FinishLoginKeeps | client/src/GManager.Client.Service/ClientRuntime.cs:261-270 | the last section of a login keeps the invariant on all its paths |
| StationSafety.StepKeepsLock | client/src/GManager.Client.Service/ClientRuntime.cs:66-392 | every action of the station keeps: cache coherent, locally locked ⇒ policy inactive and record marked so, Active view ⇒ record, no local lock, session not blocked |
| StationSafety.ReachableLock | client/src/GManager.Client.Service/ClientRuntime.cs:30-438 | the invariant holds in every reachable state |
| StationSafety.ActiveState | client/src/GManager.Client.Service/ClientRuntime.cs:312-392 | in every reachable state Active for S implies a record, no local lock and blocked session ≠ S |
| StationSafety.EntitlementSafety | client/src/GManager.Client.Service/ClientRuntime.cs:66-97 | after a normal Tick outside maintenance an active policy is backed by a lease with now < grace end = expiry ≤ session end, and so is anything Windows allows after a verified run of the script |
| StationSafety.WindowsEntitlementIff | client/src/GManager.Client.Service/ClientRuntime.cs:88-96 | what Windows itself allows after such a Tick is backed by such a lease if and only if the Tick did not stall, at the early return of ShowAssignment, while Windows allowed something; that needs an unverified enforcer before the Tick |
| StationSafety.LockLocalCloses | client/src/GManager.Client.Service/ClientRuntime.cs:372-392 | in any reachable state a lock that ends normally closes the view, the local lock, the policy and Windows |
| StationPrecision.LockOutcome | client/src/GManager.Client.Service/ClientRuntime.cs:372-392 | exactly when a lock ends normally, and its whole effect, including the block of the session at play |
| StationPrecision.LockRepeated | client/src/GManager.Client.Service/ClientRuntime.cs:376 | a lock on a locked station changes nothing but what Windows holds |
| StationPrecision.RestartOutcome | client/src/GManager.Client.Service/ClientRuntime.cs:36-44 | what a restart takes from the snapshot, and that it starts locked, unverified and not behind floor or wall clock |
| StationPrecision.TickLeavesEntitledAlone | client/src/GManager.Client.Service/ClientRuntime.cs:86-97 | in every reachable state a Tick changes nothing under an entitled lease, outside maintenance and with the identity service running |
| StationPrecision.TickLocksExpired | client/src/GManager.Client.Service/ClientRuntime.cs:96 | without a record, or under a lease that is over and offers no assignment, a normal Tick locks, closes Windows and blocks the session at play |
| StationPrecision.IdentityLossLocks | client/src/GManager.Client.Service/ClientRuntime.cs:88 | a verified station whose identity service is found stopped ends the Tick locked and closed |
| StationPrecision.TickInMaintenance | client/src/GManager.Client.Service/ClientRuntime.cs:69-85 | what a Tick in maintenance changes, and what it leaves alone |
| StationPrecision.LeavingMaintenanceCloses | client/src/GManager.Client.Service/ClientRuntime.cs:89-94 | a normal Tick that leaves maintenance closes Windows |
| StationPrecision.TickShowsAssignment | client/src/GManager.Client.Service/ClientRuntime.cs:95 | a locked station with a waiting assignment and every command applied shows it, with Windows closed |
| StationPrecision.ShownIsWaiting | client/src/GManager.Client.Service/ClientRuntime.cs:350-356 | an assignment is shown only if it was waiting and every command applied |
| StationPrecision.ApplyLeavesEntitledAlone | client/src/GManager.Client.Service/ClientRuntime.cs:366-368 | the session at play stays under an entitled lease for it |
| StationPrecision.ApplyOtherwise | client/src/GManager.Client.Service/ClientRuntime.cs:361-369 | in every other case an application ends locked, at the assignment, or waiting for a login, by exact conditions |
| StationPrecision.LoginSucceedsIff | client/src/GManager.Client.Service/ClientRuntime.cs:261-270 | a login ends Active exactly under plain conditions; the lock is then off in memory and record and Windows allows exactly the applications |
| StationPrecision.StartOutcome | client/src/GManager.Client.Service/SessionLeaseRuntime.cs:5-6 | exactly when a start counts, and what it lifts |
| StationPrecision.BlockIsLiftedByStart | client/src/GManager.Client.Service/ClientRuntime.cs:317-323 | within a process nothing but an accepted start lifts a block |
| StationTruth.FinishLoginTruth | client/src/GManager.Client.Service/ClientRuntime.cs:261-270 | a login's last section keeps "locally locked ⇒ inactive" exactly unless a deadline meets a process that cannot be stopped |
| StationTruth.StepTruth | client/src/GManager.Client.Service/ClientRuntime.cs:259-268 | exactly two kinds of step break the truth of "locally locked" |
| StationTruth.RunTruth | client/src/GManager.Client.Service/ClientRuntime.cs:343-349 | a run stays truthful throughout if and only if none of its steps is one of those |
| StationTruth.PromisesKeepTruth | client/src/GManager.Client.Service/ClientRuntime.cs:259-371 | the stated promises of the surroundings rule those steps out in every run |
| StationTruth.TruthfulLockAcks | client/src/GManager.Client.Service/ClientRuntime.cs:343-371 | under the promises every lock acknowledgement the server received was sent while Windows allowed nothing |
| StationHistory.StepKeepsLog | client/src/GManager.Client.Service/ClientRuntime.cs:297-342 | every action, crash and restart keeps the log invariant of memory and snapshot |
| StationHistory.CommandLog | client/src/GManager.Client.Service/ClientRuntime.cs:297-342 | applied commands are the numbers 1 to AppliedSequence in order, within the cursor; the pending acknowledgement, if any, is AppliedSequence; all others are acknowledged or pruned; the snapshot is a prefix of memory |
| StationHistory.AppliedIsLogPrefix | client/src/GManager.Client.Service/ClientRuntime.cs:303-328 | through crashes, losses, duplicates and reordering the commands applied are exactly a prefix of the server's log |
| StationHistory.MonotoneHistory | client/src/GManager.Client.Service/SessionLeaseRuntime.cs:22-27 | cursor, issue time and applied number never go back within a process, nor behind the saved snapshot across restarts |
| StationHistory.EntryToActive | client/src/GManager.Client.Service/ClientRuntime.cs:256-268 | Active is entered only by the end of a login, with AppliedSequence = CommandCursor and an entitled lease for that session |
| StationHistory.ExpiredForever | client/src/GManager.Client.Service/ClientRuntime.cs:43 | a lease that must lock at the saved floor must lock in every later running state, across restarts with any wall clock |
| StationHistory.AckIsDurableIffSaved | client/src/GManager.Client.Service/ClientRuntime.cs:325-341 | a number being acknowledged is on disk exactly when the write after it was applied has not failed |
| StationHistory.StepDurability | client/src/GManager.Client.Service/ClientRuntime.cs:325-341 | exactly one kind of step, an acknowledgement after a failed write of its number, makes an acknowledged number not durable |
| StationHistory.RunDurability | client/src/GManager.Client.Service/ClientRuntime.cs:325-341 | a run keeps every acknowledged or pruned number on disk throughout if and only if it has no such step |
| StationHistory.AcknowledgedIsDurable | client/src/GManager.Client.Service/ClientRuntime.cs:325-341 | in runs without a failed snapshot write every acknowledged or pruned number is covered by the snapshot |
| StationObligations.StepKeepsObligations | client/src/GManager.Client.Service/ClientRuntime.cs:317-349 | every action keeps all lock obligations, in memory and in the snapshot |
| StationObligations.LockObligationsKept | client/src/GManager.Client.Service/ClientRuntime.cs:317-349 | an unexpired lock command at k stays pending at ≥ k until ended by a received lock acknowledgement ≥ k, an unexpired later start accepted under a covering ACTIVE lease for its session, or an ACTIVE lease for another session |
| StationWitnesses.LoginWhileActiveIsDishonest | client/src/GManager.Client.Service/ClientRuntime.cs:259 | start, Refresh, login, and a second login while Active: a false "locally locked" |
| StationWitnesses.ReplacedSessionIsDishonest | client/src/GManager.Client.Service/ClientRuntime.cs:366-367 | the same after a Refresh replaces the active session without a lock command |
| StationWitnesses.UnwrittenMaintenanceExitIsDishonest | client/src/GManager.Client.Service/ClientRuntime.cs:89-94 | the same after the write on leaving maintenance fails in the Tick of a local request |
| StationWitnesses.UnstoppedLoginIsDishonest | client/src/GManager.Client.Service/ClientRuntime.cs:264-265 | the same inside a login whose deadline passes while a process cannot be stopped |
| StationWitnesses.UnverifiedWindowsMayStayOpen | client/src/GManager.Client.Service/ClientRuntime.cs:351-353 | a run whose activation and lock scripts both fail, and in which a normal Tick stalls under a lease that must lock while a program stays allowed |
| StationWitnesses.FailedSaveIsAcknowledged | client/src/GManager.Client.Service/ClientRuntime.cs:326-333 | a login whose snapshot write fails, the lock of Handle, and a Refresh that acknowledges a number the snapshot does not cover |
| ClientRuntimeObject.ClientRuntime.constructor | client/src/GManager.Client.Service/ClientRuntime.cs:36-44 | a new process is the machine's restart, whatever Windows holds by then: record loaded, marked locally locked, clock at the floor or above |
| ClientRuntimeObject.ClientRuntime.Lock | client/src/GManager.Client.Service/ClientRuntime.cs:372-392 | LockLocal field by field, with every failure path |
| ClientRuntimeObject.ClientRuntime.Show | client/src/GManager.Client.Service/ClientRuntime.cs:351-356 | ShowAssignment closes the policy before it shows the assignment |
| ClientRuntimeObject.ClientRuntime.TickBody | client/src/GManager.Client.Service/ClientRuntime.cs:66-105 | TickCore field by field |
| ClientRuntimeObject.ClientRuntime.Tick | client/src/GManager.Client.Service/ClientRuntime.cs:62-65 | the machine's Tick; entitlement holds of the object's own fields afterwards, and an entitled session is left alone |
| ClientRuntimeObject.ClientRuntime.LockLocally | client/src/GManager.Client.Service/ClientRuntime.cs:372-392 | the machine's lock; if normal, Windows allows nothing |
| ClientRuntimeObject.ClientRuntime.Install | client/src/GManager.Client.Service/ClientRuntime.cs:141 | the record keeps everything but the lease and the floor |
| ClientRuntimeObject.ClientRuntime.SaveBody | client/src/GManager.Client.Service/ClientRuntime.cs:426 | the floor is stamped with the trusted time and the record written, or the write fails |
| ClientRuntimeObject.ClientRuntime.CommandBody | client/src/GManager.Client.Service/ClientRuntime.cs:312-340 | the record updates of a lock, a start, an applied number and a cleared acknowledgement, written out, are those of the machine |
| ClientRuntimeObject.ClientRuntime.ApplyBody | client/src/GManager.Client.Service/ClientRuntime.cs:357-371 | ApplyLease field by field |
| ClientRuntimeObject.ClientRuntime.LoginBody | client/src/GManager.Client.Service/ClientRuntime.cs:261-270 | the last section of a login field by field |
| ClientRuntimeObject.ClientRuntime.Interfere | client/src/GManager.Client.Service/ClientRuntime.cs:62-65 | any number of Ticks changes nothing of the record but blocked session and local lock |
| ClientRuntimeObject.ClientRuntime.AckPendingCommand | client/src/GManager.Client.Service/ClientRuntime.cs:330-342 | a run of the machine; when it ends normally nothing is left to acknowledge and the record is saved; without failures it does |
| ClientRuntimeObject.ClientRuntime.RecordApplied | client/src/GManager.Client.Service/ClientRuntime.cs:325-327 | the number is recorded, saved, and only then acknowledged; without failures it ends normally |
| ClientRuntimeObject.ClientRuntime.ObeyCommand | client/src/GManager.Client.Service/ClientRuntime.cs:310-327 | a lock command leaves the station locked, its session blocked and its number pending; an accepted start ends the pending lock; any other command leaves it alone; the number is applied |
| ClientRuntimeObject.SortedIsInOrder | client/src/GManager.Client.Service/ClientRuntime.cs:303 | the fetched commands, each kept, in ascending number |
| ClientRuntimeObject.ClientRuntime.ApplyInOrder | client/src/GManager.Client.Service/ClientRuntime.cs:303-328 | the loop: all fetched commands are applied, or the station waits locked before a real hole or an uncovered number |
| ClientRuntimeObject.ClientRuntime.Consider | client/src/GManager.Client.Service/ClientRuntime.cs:305-316 | one command: duplicate, applied, or the exact reason to stop |
| ClientRuntimeObject.ClientRuntime.ReconcileCommands | client/src/GManager.Client.Service/ClientRuntime.cs:297-329 | a run of the machine: all commands returned are applied, or the station waits locked before a real hole or uncovered number; without failures it ends normally |
| ClientRuntimeObject.ClientRuntime.AckPendingLock | client/src/GManager.Client.Service/ClientRuntime.cs:343-349 | a run of the machine; normally ended, nothing is owed or a reason forbids it; under an ACTIVE lease for another session nothing is sent |
| ClientRuntimeObject.ClientRuntime.ConfirmLock | client/src/GManager.Client.Service/ClientRuntime.cs:346-348 | the obligation is dropped without a message for another session's ACTIVE lease, and otherwise ends only after the server received it |
| ClientRuntimeObject.ClientRuntime.Adopt | client/src/GManager.Client.Service/ClientRuntime.cs:141-143 | install, reconcile, apply: the lease is installed, the commands reconciled, and Active means Active under that lease; without failures it ends normally |
| ClientRuntimeObject.ClientRuntime.AcceptLease | client/src/GManager.Client.Service/ClientRuntime.cs:131-138 | exactly when a lease is accepted in Refresh, login and logout; its issue time is then observed |
| ClientRuntimeObject.ClientRuntime.ReceiveForRefresh | client/src/GManager.Client.Service/ClientRuntime.cs:122-130 | a lease that passes the checks; an ACTIVE one only for a station that is Active |
| ClientRuntimeObject.ClientRuntime.UpdateConfiguration | client/src/GManager.Client.Service/ClientRuntime.cs:118-119 | a normal end means that the policy's version and applications are in force; an acceptable policy without failures gives one |
| ClientRuntimeObject.ClientRuntime.Refresh | client/src/GManager.Client.Service/ClientRuntime.cs:106-178 | a run of the machine however it goes; normally ended, a lease matching the configuration is adopted, snapshot and memory agree, nothing is owed; with fitting answers it ends normally, and a rejection locks |
| ClientRuntimeObject.ClientRuntime.Catch | client/src/GManager.Client.Service/ClientRuntime.cs:152-167 | the catch clauses lock and save within the machine, and do so when nothing fails |
| ClientRuntimeObject.ClientRuntime.Admit | client/src/GManager.Client.Service/ClientRuntime.cs:242-248 | a login is admitted if the entry conditions hold throughout its clock reads, and only if they hold at the first |
| ClientRuntimeObject.ClientRuntime.LoginRequest | client/src/GManager.Client.Service/ClientRuntime.cs:247-271 | a login is a run of the machine; a refusal means that the entry conditions did not last; a normal end is the end of the last section under the new lease; with an acceptable lease and no failures it comes to that, and a rejected lease locks |
| ClientRuntimeObject.ClientRuntime.LogoutRequest | client/src/GManager.Client.Service/ClientRuntime.cs:243-288 | when the server is told the station is locked and its snapshot says so, and it stays locked; a normal end means a confirming LOCK lease was adopted, and such a lease without failures gives one |
| ClientRuntimeObject.ClientRuntime.PrepareMaintenance | client/src/GManager.Client.Service/ClientRuntime.cs:212-235 | a normal end, which follows without failures, leaves the station locked, the lease's session blocked and the record saved |
| ClientRuntimeObject.ClientRuntime.Recover | client/src/GManager.Client.Service/ClientRuntime.cs:45-60 | a normal recovery, which follows without failures, leaves the station locked, Windows closed and the cached policy in force |
| JsonPointer.UnescapeEscape | frontend/g-manager/src/audit/auditDiff.ts:18 | unescaping undoes escaping, and an escaped key holds no separator |
| JsonPointer.PointerRoundTrip | frontend/g-manager/src/audit/auditDiff.ts:31 | a pointer text cuts back into exactly its segments |
| JsonPointer.PointerIsInjective | frontend/g-manager/src/audit/auditDiff.ts:31 | distinct paths have distinct texts |
| Numerals.ValueOfDecimal | frontend/g-manager/src/audit/auditDiff.ts:38 | the decimal text of an index reads back as the index |
| AuditDiff.Walker.Walk | frontend/g-manager/src/audit/auditDiff.ts:23-45 | the recursive walk appends exactly the difference, and fails exactly when a limit is exceeded |
| AuditDiff.Walker.WalkAll | frontend/g-manager/src/audit/auditDiff.ts:29-39 | the loops over keys and over indices do the same for all children |
| AuditDiff.Compare | frontend/g-manager/src/audit/auditDiff.ts:20-52 | for each kind of the two records: the difference of the documents, or nothing and the flag exactly beyond 2000 visits or 24 levels; texts compare as a whole |
| AuditDiffProperties.NoChangesIffEqual | frontend/g-manager/src/audit/auditDiff.ts:23-45 | no changes exactly when the snapshots are structurally equal, key order ignored |
| AuditDiffProperties.ChangesResolve | frontend/g-manager/src/audit/auditDiff.ts:44 | a reported path leads to the recorded before and after values, which differ |
| AuditDiffProperties.ChangesArePrefixFree | frontend/g-manager/src/audit/auditDiff.ts:26-44 | no reported path lies at or under another |
| AuditDiffProperties.DifferencesAreCovered | frontend/g-manager/src/audit/auditDiff.ts:23-45 | a scalar leaf that differs on either side lies at or under a reported path |
| AuditDiffProperties.EachDifferenceOnce | frontend/g-manager/src/audit/auditDiff.ts:20-52 | at or under exactly one, and reported path texts are distinct |
| AuditDiffOrder.ChangesInDocumentOrder | frontend/g-manager/src/audit/auditDiff.ts:27-38 | changes come in document order: by index, and by the left keys before the right-only ones |
| AuditDiffOrder.ChangesAreAtomic | frontend/g-manager/src/audit/auditDiff.ts:26-44 | nothing that could be taken apart is reported as a whole |
| AuditDiffOrder.ChangesWithinLimits | frontend/g-manager/src/audit/auditDiff.ts:24 | a reported path is no longer than the walk is deep |
| AuditDiffOrder.FlatVisits | frontend/g-manager/src/audit/auditDiff.ts:24 | the visit count of two lists is one for the pair and one for each pair of entries |
| SnapshotLines.Printer.Render | frontend/g-manager/src/audit/auditDiff.ts:62-75 | appends exactly the lines of the value, or fails exactly when a line or depth limit is exceeded |
| SnapshotLines.Printer.RenderEntries | frontend/g-manager/src/audit/auditDiff.ts:71-72 | the loop over the entries does the same for all of them |
| SnapshotLinesProperties.ReadsBack | frontend/g-manager/src/audit/auditDiff.ts:59-78 | a strict line reader, which checks commas, keys and indentation, recovers the printed value, whatever follows its lines |
| SnapshotLinesProperties.BlockOfPath | frontend/g-manager/src/audit/auditDiff.ts:62-75 | the lines at or under a path form one contiguous block, which is the rendering of the value there |
| SnapshotLinesProperties.LastStartIsLast | frontend/g-manager/src/audit/auditDiff.ts:63 | the line limit is tested against the number of lines before the value rendered last |
| SnapshotLinesProperties.DepthIsDeepestLine | frontend/g-manager/src/audit/auditDiff.ts:63 | the depth limit is tested against the deepest line |
| SnapshotLines.SnapshotLines | frontend/g-manager/src/audit/auditDiff.ts:59-78 | lines exactly for a document within 3000 lines and 24 levels, and then all of them |
| LaneLayout.SortedByStart | frontend/g-manager/src/calendar/weeklyModel.ts:48 | the stable sort is a permutation by start, then longest or shortest first, then identifier |
| LaneLayout.FindLane | frontend/g-manager/src/calendar/weeklyModel.ts:53-54 | the first lane free at the start, or a new one |
| LaneLayout.PackNext | frontend/g-manager/src/calendar/weeklyModel.ts:53-56 | one first-fit step keeps lanes disjoint, every event in the first free lane, and a tower of events over one instant, one for each lane |
| LaneLayout.PackedIsPeak | frontend/g-manager/src/calendar/weeklyModel.ts:53-56 | first fit uses exactly as many lanes as events meet at the busiest instant |
| WeeklyEvents.KeptIsMeeting | frontend/g-manager/src/calendar/weeklyModel.ts:46-47 | exactly the events that meet [from, to) are kept, each cut to its instants inside |
| WeeklyEvents.Finish | frontend/g-manager/src/calendar/weeklyModel.ts:50 | the number of lanes is written into the events of the group and no others |
| WeeklyEvents.Place | frontend/g-manager/src/calendar/weeklyModel.ts:49-58 | every event belongs to a closed group with disjoint lanes, one columns value, and that value its busiest instant |
| WeeklyEvents.GroupIsComponent | frontend/g-manager/src/calendar/weeklyModel.ts:51-57 | the groups are exactly the connected components of the overlap relation |
| WeeklyEvents.SettledIsOptimal | frontend/g-manager/src/calendar/weeklyModel.ts:45-60 | overlapping events share component and columns and have different lanes below columns; every lane to the left is taken; columns is the component's maximum simultaneous overlap |
| WeeklyEvents.WeeklyEvents | frontend/g-manager/src/calendar/weeklyModel.ts:45-60 | the method returns the kept events in the stated order, laid out in that optimal way |
| Timeline.AssignLanes | frontend/g-manager/src/calendar/CalendarTimeline.tsx:31-39 | a permutation in the stated order with overlapping events in different lanes, each in the first free one, and as many as meet at the busiest instant |
| Timeline.CutAll | frontend/g-manager/src/calendar/CalendarTimeline.tsx:41-48 | over sorted windows the loop yields tidy ranges that are the exact complement |
| Timeline.ClosedRanges | frontend/g-manager/src/calendar/CalendarTimeline.tsx:40-49 | an instant of [from, to) is in a returned range exactly when it is in no window; ranges are nonempty, in order and apart |
| Timeline.ClosedAndOpenMakeTheDay | frontend/g-manager/src/calendar/CalendarTimeline.tsx:40-49 | closed length plus the size of the windows' union inside [from, to) is to − from |
| WeeklyAxis.DaySlots | frontend/g-manager/src/calendar/weeklyModel.ts:20-27 | one slot per quarter hour, labelled and numbered by how often the label occurred before in that day |
| WeeklyAxis.WeeklyAxis | frontend/g-manager/src/calendar/weeklyModel.ts:10-34 | the axis is strictly increasing, holds exactly the standard rows and all slots' rows, and the index map is its inverse |
| WeeklyAxis.SecondOccurrences | frontend/g-manager/src/calendar/weeklyModel.ts:22-25 | exactly the quarters just after a clock is put back are second occurrences |
| WeeklyAxis.IncreaseIffAtMostOneHourBack | frontend/g-manager/src/calendar/weeklyModel.ts:30-31 | a day's slots map to strictly increasing rows exactly when clocks are not put back by more than one hour |
| WeeklyAxis.PositionFollowsTime | frontend/g-manager/src/calendar/weeklyModel.ts:36-42 | positions stay in [0, rowCount], never decrease, and differ for different instants of the day |
| WeeklyAxis.PositionInSlot | frontend/g-manager/src/calendar/weeklyModel.ts:36-42 | within a quarter hour the position moves from its row to the next in proportion to time, and the day starts at the top |
| SseFraming.NormaliseAgain | frontend/g-manager/src/api/sse.ts:93 | normalising the accumulated buffer again equals normalising the text once, without CR CR LF |
| SseFraming.ReceiveFollowsText | frontend/g-manager/src/api/sse.ts:93-110 | blocks and buffer always make up the normalised prefix read so far |
| SseFraming.ChunkInvariantIff | frontend/g-manager/src/api/sse.ts:87-111 | every way of cutting a text gives the blocks and buffer of the whole exactly when it holds no CR CR LF |
| SseEvents.DrainBuffer | frontend/g-manager/src/api/sse.ts:94-110 | the inner loop emits the events of all complete blocks and keeps the rest |
| SseEvents.TrimStartCuts | frontend/g-manager/src/api/sse.ts:100 | what is cut off at the front is white space and the rest begins with none |
| SseEvents.TrimEndCuts | frontend/g-manager/src/api/sse.ts:98-99 | what is cut off at the end is white space and the rest ends with none |
| SseEvents.FieldIsFirst | frontend/g-manager/src/api/sse.ts:98-99 | the first line with the prefix decides |
| SseEvents.ConsumeSse | frontend/g-manager/src/api/sse.ts:87-111 | the emitted events are those of the whole text, without CR CR LF |
| SseEvents.LinesOfJoin | frontend/g-manager/src/api/sse.ts:96 | splitting a block undoes joining its lines |
| SseEvents.StreamIsDelivered | frontend/g-manager/src/api/sse.ts:76-117 | however a stream of messages, with any white space around values and any ignored lines, is cut, exactly the bare values of those of the event name that carry data are emitted, once each and in order |
| SseEvents.CutChangesData | frontend/g-manager/src/api/sse.ts:92-93 | with CR CR LF two cuts of one text emit different data |
| FinancialCommand.IdempotencyKeyManager.Begin | frontend/g-manager/src/api/idempotency.ts:12-15 | the held key, or a new one which is then held |
| FinancialCommand.IdempotencyKeyManager.Fail | frontend/g-manager/src/api/idempotency.ts:19-26 | the key is kept exactly after answers that say nothing: none, 425, 500 and above, 409 about the key, and 401 or 403 in doubt |
| FinancialCommand.IdempotencyKeyManager.Succeeded | frontend/g-manager/src/api/idempotency.ts:17 | the key is given up |
| FinancialCommand.RetainsWhatSaysNothing | frontend/g-manager/src/api/idempotency.ts:20-24 | in every sound state the client keeps key and request after any answer that says nothing about the operation |
| FinancialCommand.Command.Start | frontend/g-manager/src/gaming/useFinancialCommand.tsx:13-17 | nothing while the gate is held; otherwise the unresolved request, or else the new one, under the held key |
| FinancialCommand.Command.Settle | frontend/g-manager/src/gaming/useFinancialCommand.tsx:17-24 | keys, previous request and pending flag after every outcome, including a failing completion callback |
| FinancialCommand.SuccessResets | frontend/g-manager/src/gaming/useFinancialCommand.tsx:17-19 | a success leaves no key, no request and no doubt |
| FinancialCommand.FailureKeepsOrGivesUp | frontend/g-manager/src/gaming/useFinancialCommand.tsx:20-22 | a failure keeps key and request in doubt, or gives both up |
| FinancialCommand.CallSends | frontend/g-manager/src/gaming/useFinancialCommand.tsx:13-17 | what a call sends: the unresolved request under its key, else the new operation under a new one, nothing while one is under way |
| FinancialCommand.StepKeeps | frontend/g-manager/src/gaming/useFinancialCommand.tsx:12-25 | every call, delivery and answer keeps: one key one operation, one effect per key, all but the current operation resolved |
| FinancialCommand.AtMostOnce | frontend/g-manager/src/gaming/useFinancialCommand.tsx:12-25 | over any run an operation takes effect at most once, and exactly once if reported successful; a key never carries two operations |
| FinancialCommand.NoNewOperationWhileUnresolved | frontend/g-manager/src/gaming/useFinancialCommand.tsx:15 | a new operation goes out only when every earlier one has been answered |
| FinancialCommand.StepIdle | frontend/g-manager/src/api/idempotency.ts:19-26 | exactly one kind of step, such a late delivery, gives an effect to a refused operation |
| FinancialCommand.ReportIsTruth | frontend/g-manager/src/gaming/useFinancialCommand.tsx:16-23 | after any run every answered operation took effect exactly when reported successful, if and only if no transmission reached the server after its operation was refused |
| FinancialCommand.LateDeliveryAfterRejection | frontend/g-manager/src/api/idempotency.ts:19-26 | for any operation, a run in which it is refused and takes effect afterwards |
| ExactMoney.CentsAreExact | frontend/g-manager/src/gaming/useGamingPurchase.ts:15-16 | a price in the grammar is read as exactly a hundred times its decimal value |
| ExactMoney.ReadOnlyGrammar | frontend/g-manager/src/gaming/useGamingPurchase.ts:15 | nothing outside the grammar is read |
| ExactMoney.PrintReadsBack | frontend/g-manager/src/gaming/useGamingPurchase.ts:18 | a printed amount has two decimals, no superfluous zero, and reads back as itself |
| ExactMoney.AmountIsExact | frontend/g-manager/src/gaming/useGamingPurchase.ts:13-18 | an amount appears exactly for a grammatical price, valid minutes and 0 < total ≤ 99999999999999; it re-parses to cents × minutes with two decimals and at most twelve integer digits |

## Left out

- Signatures, hashes, base64url, DPAPI and Authenticode: a lease, policy or program that reaches the model has been verified, or the check's failure is an input.
- HTTP, named pipes, process stopping, log-off and the PowerShell policy script: foreign calls, modelled as any outcome. The list that Windows holds is a set of paths; a failing script leaves any mixture of the old and the new list.
- Development mode (reset, simulated enforcement) and unreadable snapshots: they restart the histories that the invariants speak about on purpose.
- The 30-second `preparingUntil` window of Handle, the update claim of prepare-update, heartbeats, error codes and operational events: they refuse or report, and touch no modelled state.
- The privacy review that Recover repeats for an interrupted session; that of LockLocal is modelled as an outcome.
- The `launch` and `status` requests of Handle beyond `Launch` itself, and `AutoApplications`.
- Server cursors are taken as non-negative, and the wall clock as read once per restart in the station machine (`StartsAtOrAboveFloor` states the two-read case).
- Tick calls inside Refresh, Handle and Recover are covered by "any number of Ticks here" rather than by exactly one.
- Case folding of application codes is taken as done.
- JSON parsing, `JSON.stringify` of scalars and keys (taken as injective tokens, so a line is its parts, not its characters), the `label` of a change, and identity of one shared container object (`===` on objects).
- Date parsing, time zones and `localeCompare`: instants, local labels and the collation rank of identifiers are inputs. Columns are proved optimal for events of positive length, and closed ranges exact for windows that do not end before they start.
- Callbacks of the SSE reader that throw, reconnection, abort and text decoding.
- Query invalidation, the dirty guard and all rendering in the React hooks and components.
- Carts, notification preferences, order permissions, feature flags and deployment scripts.
- PolicyEnforcement.StationPolicyEnforcer.ApplyOsPolicy: a script that the cancellation of a stopping service leaves running may still change Windows until the process ends. Afterwards the model lets a new process find any list.
- A policy update takes `osSync` but not `stateSync`, so it can fall between two enforcer calls of one Tick. The machine runs it between actions only; `UpdateOpensNothing` states what such an update cannot do.
- Ticks of the concrete runs in `StationWitnesses.dfy` that change nothing are not written out there.
