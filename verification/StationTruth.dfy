/** When is a lock acknowledgement true? The exact steps that can make it false, and what rules them out. */
module StationTruth {
  import opened Options
  import opened Leases
  import opened PolicyEnforcement
  import opened StationProtocol
  import opened StationSafety

  /** The record says "locally locked" only while the policy is inactive. */
  ghost predicate Honest(d: Desk) {
    d.recovery.Some? && d.recovery.value.locallyLocked ==> !d.enforcer.active
  }

  /** In addition an acknowledgement under way finds Windows closed, and every one sent so far was true. */
  ghost predicate Truthful(s: Station) {
    && Honest(s.desk)
    && (s.intent != NoIntent ==>
          s.desk.recovery.Some? && s.desk.recovery.value.locallyLocked && s.desk.enforcer.os == {})
    && (forall i :: 0 <= i < |s.server.lockAcks| ==> s.server.lockAcks[i].closed)
  }

  /** The two steps that break it. A login replaces the record by one marked locally locked although the policy is
      active; or the deadline passes inside a login and the process stop of the lock that follows fails, which leaves
      the policy active under a record that still says "locally locked". */
  predicate Breaks(s: Station, a: Action)
    requires Enabled(s, a)
  {
    || (a.InstallLease? && a.origin == FromLogin && s.desk.enforcer.active)
    || (a.EndLogin? && UnstoppedLogin(s.desk, a.login))
  }

  predicate UnstoppedLogin(d: Desk, i: LoginInput)
    requires d.recovery.Some?
  {
    DeadlineInLogin(d, i) && !i.lock.stopped && d.recovery.value.locallyLocked
  }

  lemma QuietKeepsTruth(s: Station, d: Desk)
    requires Truthful(s) && Quiet(s.desk, d)
    ensures Truthful(s.(desk := d))
  {
  }

  lemma FinishLoginTruth(d: Desk, i: LoginInput)
    requires DeskInv(d) && Honest(d) && d.recovery.Some?
    ensures Honest(FinishLogin(d, i).d) <==> !UnstoppedLogin(d, i)
  {
    if DeadlineInLogin(d, i) {
      var d1 := d.(enforcer := SessionActive(d.enforcer, true, i.valid, i.r).state, locallyLocked := false);
      LockLocalKeeps(d1, i.lock);
    }
  }

  lemma SectionTruth(s: Station, a: Action)
    requires LockInv(s) && Truthful(s) && Enabled(s, a) && Section(a)
    ensures Truthful(Do(s, a)) <==> !Breaks(s, a)
  {
    match a
    case Tick(i) => TickKeeps(s.desk, i); QuietKeepsTruth(s, TickCore(s.desk, i).d);
    case Lock(i) => LockLocalKeeps(s.desk, i); QuietKeepsTruth(s, LockLocal(s.desk, i).d);
    case UseLease(i) => ApplyLeaseKeeps(s.desk, i); QuietKeepsTruth(s, ApplyLease(s.desk, i).d);
    case EndLogin(i) => FinishLoginTruth(s.desk, i);
    case UpdatePolicy(p, valid, r, saved) =>
  }

  lemma CommandTruth(s: Station, k: CommandStep)
    requires LockInv(s) && Truthful(s) && s.running && CommandEnabled(s, k)
    ensures Truthful(DoCommand(s, k))
  {
  }

  lemma LockAckTruth(s: Station, k: LockAckStep)
    requires LockInv(s) && Truthful(s) && LockAckEnabled(s, k)
    ensures Truthful(DoLockAck(s, k))
  {
  }

  /** Exactly two kinds of step break truthfulness, and nothing else does. */
  lemma StepTruth(s: Station, a: Action)
    requires LockInv(s) && Truthful(s) && Enabled(s, a)
    ensures Truthful(Do(s, a)) <==> !Breaks(s, a)
  {
    if Section(a) {
      SectionTruth(s, a);
    } else if a.OnCommand? {
      CommandTruth(s, a.command);
    } else if a.OnLockAck? {
      LockAckTruth(s, a.ack);
    }
  }

  /** No step of the run is one that breaks truthfulness. */
  ghost predicate Unbroken(s: Station, run: seq<Action>)
    requires Run(s, run)
    decreases |run|
  {
    run != [] ==> !Breaks(s, run[0]) && Unbroken(Do(s, run[0]), run[1..])
  }

  /** Truthful in every state that the run passes through. */
  ghost predicate TruthfulThroughout(s: Station, run: seq<Action>)
    requires Run(s, run)
    decreases |run|
  {
    Truthful(s) && (run != [] ==> TruthfulThroughout(Do(s, run[0]), run[1..]))
  }

  lemma {:induction false} RunTruth(s: Station, run: seq<Action>)
    requires LockInv(s) && Truthful(s) && Run(s, run)
    ensures TruthfulThroughout(s, run) <==> Unbroken(s, run)
    decreases |run|
  {
    if run != [] {
      StepKeepsLock(s, run[0]);
      StepTruth(s, run[0]);
      if !Breaks(s, run[0]) { RunTruth(Do(s, run[0]), run[1..]); }
    }
  }

  lemma {:induction false} ThroughoutAtEnd(s: Station, run: seq<Action>)
    requires Run(s, run) && TruthfulThroughout(s, run)
    ensures Truthful(End(s, run))
    decreases |run|
  {
    if run != [] { ThroughoutAtEnd(Do(s, run[0]), run[1..]); }
  }

  // ---------- what the surroundings must promise ----------

  /** An unexpired lock command that the lease covers and that is not applied yet. */
  ghost predicate LockAhead(log: seq<Command>, after: int, cursor: int) {
    exists k :: 0 <= after <= k < cursor && k < |log| && log[k].Locks()
  }

  function Applied(d: Desk): int { if d.recovery.Some? then d.recovery.value.applied else 0 }

  /** The lease is ACTIVE for another session than the one the view shows as Active. */
  predicate Replaces(d: Desk, l: Lease) {
    d.view.mode == Active && l.directive == ActiveDirective && l.sessionId != d.view.session
  }

  /** The hypotheses under which every acknowledgement is true, each on one kind of step:
      - commands are the ones of a fixed log;
      - a login arrives only while the view is not Active;
      - a lease that replaces the active session by another one covers a lock command that is still to be applied;
      - leaving maintenance with an active policy does not fail to write the maintenance file;
      - a deadline inside a login does not meet a process that cannot be stopped. */
  ghost predicate Promised(log: seq<Command>, s: Station, a: Action)
    requires Enabled(s, a)
  {
    match a
    case OnCommand(k) => k.CommandApplied? ==> FromLog(log, k.c)
    case AdmitLogin(_, _, _) => s.desk.view.mode != Active
    case InstallLease(l, _) => Replaces(s.desk, l) ==> LockAhead(log, Applied(s.desk), l.cursor)
    case Tick(i) => s.desk.maintenance && s.desk.enforcer.active ==> i.exitWritten
    case EndLogin(i) => DeadlineInLogin(s.desk, i) ==> i.lock.stopped
    case _ => true
  }

  /** An active policy shows in the view, and an Active view under a lease for another session has its lock ahead. */
  ghost predicate Attached(log: seq<Command>, d: Desk) {
    && (d.enforcer.active ==> d.view.mode == Active || (d.view.mode == Maintenance && d.maintenance))
    && (d.recovery.Some? && Replaces(d, d.recovery.value.lease) ==>
          LockAhead(log, d.recovery.value.applied, d.recovery.value.lease.cursor))
  }

  lemma LockLocalAttached(log: seq<Command>, d: Desk, i: LockInput)
    requires DeskInv(d) && Attached(log, d)
    ensures Attached(log, LockLocal(d, i).d)
  {
    LockLocalKeeps(d, i);
  }

  lemma ShowAssignmentAttached(log: seq<Command>, d: Desk, i: ShowInput)
    requires DeskInv(d) && d.recovery.Some? && Attached(log, d)
    ensures Attached(log, ShowAssignment(d, i).d)
  {
    ShowAssignmentKeeps(d, i);
  }

  lemma TickIdentityAttached(log: seq<Command>, d: Desk, i: TickInput)
    requires DeskInv(d) && Attached(log, d)
    ensures Attached(log, TickIdentity(d, i).d)
  {
    var c := IdentityChecked(d.enforcer, i.identityRunning);
    if !c.ok { LockLocalAttached(log, d.(enforcer := c.state), i.identityLock); }
  }

  lemma TickDeadlineAttached(log: seq<Command>, d: Desk, i: TickInput)
    requires DeskInv(d) && Attached(log, d)
    ensures Attached(log, TickDeadline(d, i).d)
  {
    var o := LockLocal(d, i.lock);
    LockLocalKeeps(d, i.lock);
    LockLocalAttached(log, d, i.lock);
    if d.recovery.Some? {
      ShowAssignmentAttached(log, d, i.show);
      ShowAssignmentAttached(log, o.d, i.lockShow);
    }
  }

  lemma TickOutsideAttached(log: seq<Command>, d: Desk, i: TickInput)
    requires DeskInv(d) && Attached(log, d)
    requires d.maintenance && d.enforcer.active ==> i.exitWritten
    ensures Attached(log, TickOutside(d, i).d)
  {
    TickIdentityKeeps(d, i);
    TickIdentityAttached(log, d, i);
    var o1 := TickIdentity(d, i);
    if o1.ok {
      TickExitKeeps(o1.d, i);
      var o2 := TickExit(o1.d, i);
      if o2.ok { TickDeadlineAttached(log, o2.d, i); }
    }
  }

  lemma ApplyLeaseAttached(log: seq<Command>, d: Desk, i: ApplyInput)
    requires DeskInv(d) && d.recovery.Some? && Attached(log, d)
    ensures Attached(log, ApplyLease(d, i).d)
  {
    LockLocalKeeps(d, i.lock);
    LockLocalAttached(log, d, i.lock);
    ShowAssignmentAttached(log, d, i.show);
    ShowAssignmentAttached(log, LockLocal(d, i.lock).d, i.show);
  }

  lemma FinishLoginAttached(log: seq<Command>, d: Desk, i: LoginInput)
    requires DeskInv(d) && d.recovery.Some? && Attached(log, d)
    requires DeadlineInLogin(d, i) ==> i.lock.stopped
    ensures Attached(log, FinishLogin(d, i).d)
  {
  }

  lemma CommandAttached(log: seq<Command>, s: Station, k: CommandStep)
    requires LockInv(s) && s.running && CommandEnabled(s, k) && Attached(log, s.desk)
    requires k.CommandApplied? ==> FromLog(log, k.c)
    ensures Attached(log, DoCommand(s, k).desk)
  {
    CommandKeepsLock(s, k);
  }

  /** The station as a whole: while a login is admitted the policy is inactive. */
  ghost predicate Orderly(log: seq<Command>, s: Station) {
    Attached(log, s.desk) && (s.admitted ==> !s.desk.enforcer.active)
  }

  lemma SectionOrderly(log: seq<Command>, s: Station, a: Action)
    requires LockInv(s) && Orderly(log, s) && Enabled(s, a) && Promised(log, s, a) && Section(a)
    ensures Orderly(log, Do(s, a))
  {
    match a
    case Tick(i) =>
      TickKeeps(s.desk, i);
      if MaintenanceEnabled(i) { TickMaintenanceKeeps(s.desk, i); } else { TickOutsideAttached(log, s.desk, i); }
    case Lock(i) => LockLocalKeeps(s.desk, i); LockLocalAttached(log, s.desk, i);
    case UseLease(i) => ApplyLeaseKeeps(s.desk, i); ApplyLeaseAttached(log, s.desk, i);
    case EndLogin(i) => FinishLoginAttached(log, s.desk, i);
    case UpdatePolicy(_, _, _, _) =>
  }

  lemma StepOrderly(log: seq<Command>, s: Station, a: Action)
    requires LockInv(s) && Orderly(log, s) && Enabled(s, a) && Promised(log, s, a)
    ensures Orderly(log, Do(s, a)) && !Breaks(s, a)
  {
    if Section(a) {
      SectionOrderly(log, s, a);
    } else if a.OnCommand? {
      CommandOrderly(log, s, a);
    } else if a.OnLockAck? {
      LockAckOrderly(log, s, a);
    } else if a.InstallLease? {
      InstallOrderly(log, s, a);
    } else {
      RestOrderly(log, s, a);
    }
    PromisedIsUnbroken(log, s, a);
  }

  lemma PromisedIsUnbroken(log: seq<Command>, s: Station, a: Action)
    requires Orderly(log, s) && Enabled(s, a) && Promised(log, s, a)
    ensures !Breaks(s, a)
  {
  }

  lemma LockAckOrderly(log: seq<Command>, s: Station, a: Action)
    requires LockInv(s) && Orderly(log, s) && Enabled(s, a) && a.OnLockAck?
    ensures Orderly(log, Do(s, a))
  {
    LockAckKeepsLock(s, a.ack);
  }

  lemma InstallOrderly(log: seq<Command>, s: Station, a: Action)
    requires Orderly(log, s) && Enabled(s, a) && Promised(log, s, a) && a.InstallLease?
    ensures Orderly(log, Do(s, a))
  {
  }

  lemma RestOrderly(log: seq<Command>, s: Station, a: Action)
    requires LockInv(s) && Orderly(log, s) && Enabled(s, a) && Promised(log, s, a)
    requires !Section(a) && !a.OnCommand? && !a.OnLockAck? && !a.InstallLease?
    ensures Orderly(log, Do(s, a))
  {
  }

  lemma CommandOrderly(log: seq<Command>, s: Station, a: Action)
    requires LockInv(s) && Orderly(log, s) && Enabled(s, a) && Promised(log, s, a) && a.OnCommand?
    ensures Orderly(log, Do(s, a))
  {
    CommandAttached(log, s, a.command);
    CommandKeepsLock(s, a.command);
  }

  ghost predicate Promises(log: seq<Command>, s: Station, run: seq<Action>)
    requires Run(s, run)
    decreases |run|
  {
    run != [] ==> Promised(log, s, run[0]) && Promises(log, Do(s, run[0]), run[1..])
  }

  lemma {:induction false} PromisesKeepTruth(log: seq<Command>, s: Station, run: seq<Action>)
    requires LockInv(s) && Orderly(log, s) && Run(s, run) && Promises(log, s, run)
    ensures Unbroken(s, run)
    decreases |run|
  {
    if run != [] {
      StepKeepsLock(s, run[0]);
      StepOrderly(log, s, run[0]);
      PromisesKeepTruth(log, Do(s, run[0]), run[1..]);
    }
  }

  /** Truthful lock acknowledgement: in every run whose surroundings keep their promises, whenever the record says "locally
      locked" the policy is inactive, and every acknowledgement the server received was sent while Windows allowed nothing. */
  lemma TruthfulLockAcks(id: Id, os: set<string>, log: seq<Command>, run: seq<Action>)
    requires Run(Initial(id, os), run) && Promises(log, Initial(id, os), run)
    ensures Honest(End(Initial(id, os), run).desk)
    ensures forall i :: 0 <= i < |End(Initial(id, os), run).server.lockAcks| ==>
              End(Initial(id, os), run).server.lockAcks[i].closed
  {
    PromisesKeepTruth(log, Initial(id, os), run);
    RunTruth(Initial(id, os), run);
    ThroughoutAtEnd(Initial(id, os), run);
  }
}
