/** What the critical sections do, in plain conditions on the state and the surroundings: when they act, and when they leave
    the station alone. */
module StationPrecision {
  import opened Options
  import opened Leases
  import opened PolicyEnforcement
  import opened StationProtocol
  import opened StationSafety

  // ---------- the local lock ----------

  /** A lock from a station that is not locked yet: it ends normally exactly when both process stops, the policy script (unless
      the cache already says "inactive") and, for a customer at play, the privacy review succeed. Then Windows is closed,
      the lock is recorded, and the customer's session is blocked. */
  lemma LockOutcome(d: Desk, i: LockInput)
    requires DeskInv(d) && !(d.locallyLocked && d.view.mode == Locked)
    ensures LockLocal(d, i).ok <==>
              && i.stopped && i.stoppedAgain
              && (i.r == OsResult.Applied || (!d.enforcer.active && d.enforcer.applied == Some(false)))
              && (d.view.mode == Active ==> i.reviewed)
    ensures LockLocal(d, i).ok ==>
              var e := LockLocal(d, i).d;
              && e.view == LOCKED_VIEW && e.locallyLocked && !e.enforcer.active && e.enforcer.os == {}
              && e.maintenance == d.maintenance && e.commandGap == d.commandGap
              && (d.recovery.Some? ==>
                    e.recovery == Some(d.recovery.value.(locallyLocked := true,
                                                         blocked := if d.view.mode == Active then d.view.session
                                                                    else d.recovery.value.blocked)))
              && (d.recovery.None? ==> e.recovery.None?)
  {
  }

  /** A lock repeated on a locked station changes nothing of it but, where the cache is not sure, Windows. */
  lemma LockRepeated(d: Desk, i: LockInput)
    requires DeskInv(d) && d.locallyLocked && d.view.mode == Locked
    ensures LockLocal(d, i).d == d.(enforcer := LockLocal(d, i).d.enforcer)
    ensures LockLocal(d, i).ok <==> i.r == OsResult.Applied || d.enforcer.applied == Some(false)
    ensures LockLocal(d, i).ok ==> LockLocal(d, i).d.enforcer.os == {}
  {
  }

  // ---------- restart ----------

  /** A restart takes everything from the snapshot but the mark: the record says "locally locked", nothing is shown, and the
      policy is inactive. Its clock is not behind the saved floor, nor behind the wall clock. */
  lemma RestartOutcome(s: Station, wall: Time, held: set<string>)
    requires Reachable(s) && !s.running
    ensures var t := Do(s, BootNow(wall, held));
            && t.running && t.desk.view == LOCKED_VIEW && !t.desk.enforcer.active && !t.desk.enforcer.verified
            && t.desk.enforcer.os == held && !t.desk.maintenance && !t.desk.commandGap && t.disk == s.disk && wall <= t.clock
            && (s.disk.None? ==> t.desk.recovery.None?)
            && (s.disk.Some? ==> t.desk.recovery == Some(s.disk.value.(locallyLocked := true)) && s.disk.value.floor <= t.clock)
  {
  }

  // ---------- Tick ----------

  /** A Tick leaves an entitled session, and everything else, alone. */
  lemma TickLeavesEntitledAlone(s: Station, i: TickInput)
    requires Reachable(s) && s.running && TickTimes(s.clock, i)
    requires !MaintenanceEnabled(i) && !s.desk.maintenance && i.identityRunning
    requires s.desk.recovery.Some? && Entitled(s.desk.recovery.value.lease, i.deadline)
    ensures TickCore(s.desk, i) == Out(s.desk, i.healthWritten)
  {
    ReachableLock(s);
    UnlockedMeansEntitled(s.desk.recovery.value.lease, s.id, i.deadline);
  }

  /** A station without a record, or under a lease that is over and has no waiting assignment, is locked by a normal Tick; the
      session at play is blocked. */
  lemma TickLocksExpired(s: Station, i: TickInput)
    requires Reachable(s) && s.running && TickTimes(s.clock, i) && !MaintenanceEnabled(i) && TickCore(s.desk, i).ok
    requires s.desk.recovery.Some? ==>
               s.desk.recovery.value.lease.assignmentId.None? && !Entitled(s.desk.recovery.value.lease, i.deadline)
    ensures LockedDown(s.desk, TickCore(s.desk, i).d)
  {
    ReachableLock(s);
    if s.desk.recovery.Some? { UnlockedMeansEntitled(s.desk.recovery.value.lease, s.id, i.deadline); }
    TickOutsideSteps(s.desk, i);
    DeadlineLocks(TickExit(TickIdentity(s.desk, i).d, i).d, i);
  }

  /** Locked, closed, out of maintenance, and the session at play is blocked. */
  ghost predicate LockedDown(d: Desk, e: Desk) {
    && e.view.mode == Locked && e.locallyLocked && !e.enforcer.active && e.enforcer.os == {} && !e.maintenance
    && (d.view.mode == Active ==> e.recovery.Some? && e.recovery.value.blocked == d.view.session)
  }

  lemma DeadlineLocks(d: Desk, i: TickInput)
    requires DeskInv(d) && !d.maintenance && TickDeadline(d, i).ok
    requires d.recovery.Some? ==> d.recovery.value.lease.assignmentId.None? && MustLock(d.recovery.value.lease, i.deadline)
    ensures LockedDown(d, TickDeadline(d, i).d)
    ensures d.view.mode != Active ==> SameBlock(d, TickDeadline(d, i).d)
  {
    LockLocalKeeps(d, i.lock);
  }

  ghost predicate SameBlock(d: Desk, e: Desk) {
    d.recovery.Some? ==> e.recovery.Some? && e.recovery.value.blocked == d.recovery.value.blocked
  }

  /** A normal Tick outside maintenance: identity, exit from maintenance, deadline. */
  lemma TickOutsideSteps(d: Desk, i: TickInput)
    requires DeskInv(d) && !MaintenanceEnabled(i) && TickCore(d, i).ok
    ensures var e := TickIdentity(d, i);
            var f := TickExit(e.d, i);
            e.ok && f.ok && DeskInv(e.d) && DeskInv(f.d) && TickCore(d, i).d == TickDeadline(f.d, i).d &&
            TickDeadline(f.d, i).ok && !f.d.maintenance && SameRecord(d.recovery, f.d.recovery) &&
            ((f.d.view == d.view && f.d.recovery == d.recovery) ||
             (f.d.view.mode == Locked && f.d.locallyLocked &&
              (d.view.mode == Active ==> f.d.recovery.Some? && f.d.recovery.value.blocked == d.view.session)))
  {
    TickIdentityKeeps(d, i);
    TickExitKeeps(TickIdentity(d, i).d, i);
    var c := IdentityChecked(d.enforcer, i.identityRunning);
    if !c.ok { LockLocalKeeps(d.(enforcer := c.state), i.identityLock); }
  }

  /** When the application identity service of a verified station is found stopped, a normal Tick outside maintenance ends with
      the local lock set and Windows closed. */
  lemma IdentityLossLocks(s: Station, i: TickInput)
    requires Reachable(s) && s.running && TickTimes(s.clock, i) && !MaintenanceEnabled(i) && TickCore(s.desk, i).ok
    requires s.desk.enforcer.verified && !i.identityRunning
    ensures var d := TickCore(s.desk, i).d;
            d.locallyLocked && d.view.mode != Active && !d.enforcer.active && d.enforcer.os == {}
  {
    ReachableLock(s);
    var d := s.desk;
    var c := IdentityChecked(d.enforcer, i.identityRunning);
    LockLocalKeeps(d.(enforcer := c.state), i.identityLock);
    var e := TickIdentity(d, i).d;
    TickIdentityKeeps(d, i);
    TickExitKeeps(e, i);
    TickDeadlineKeeps(TickExit(e, i).d, i);
  }

  /** Maintenance: the file's time is in the future. A normal Tick then shows the maintenance view and leaves the record, the
      lock and, while the identity service runs, the policy alone; entering it needs the customer's processes stopped. */
  lemma TickInMaintenance(d: Desk, i: TickInput)
    requires DeskInv(d) && i.maintenanceUntil.Some? && i.t0 < i.maintenanceUntil.value
    ensures TickCore(d, i).ok ==>
              var e := TickCore(d, i).d;
              && e.maintenance && e.view == View(Maintenance, None) && e.recovery == d.recovery
              && e.locallyLocked == d.locallyLocked && e.commandGap == d.commandGap && (d.maintenance || i.stopped)
              && (i.identityRunning || !d.enforcer.verified ==> e.enforcer == d.enforcer)
              && (!i.identityRunning && d.enforcer.verified ==> !e.enforcer.active && e.enforcer.os == {})
    ensures i.identityRunning && i.stopped && i.healthWritten ==> TickCore(d, i).ok
  {
  }

  /** Leaving maintenance, a normal Tick closes Windows. */
  lemma LeavingMaintenanceCloses(s: Station, i: TickInput)
    requires Reachable(s) && s.running && TickTimes(s.clock, i) && TickCore(s.desk, i).ok && s.desk.maintenance
    requires i.maintenanceUntil.None? || i.maintenanceUntil.value <= i.t0
    ensures var d := TickCore(s.desk, i).d; !d.maintenance && !d.enforcer.active && d.enforcer.os == {}
  {
    ReachableLock(s);
    TickOutsideSteps(s.desk, i);
    var e := TickIdentity(s.desk, i).d;
    TickExitKeeps(e, i);
    TickDeadlineKeeps(TickExit(e, i).d, i);
    TickIdentityKeeps(s.desk, i);
  }

  /** The assignment of the lease can be used between the two times: it is a LOCK lease, and neither the assignment nor the lease
      is over. */
  ghost predicate Waiting(l: Lease, now: Time) {
    l.directive == LockDirective && l.assignmentId.Some? && l.assignmentExpiresAt.Some? && now < l.assignmentExpiresAt.value &&
    now < l.expiresAt
  }

  /** A locked station under a lease with a waiting assignment, every command applied, shows it at the next Tick if nothing fails;
      Windows is closed. */
  lemma TickShowsAssignment(s: Station, i: TickInput)
    requires Reachable(s) && s.running && TickTimes(s.clock, i) && !MaintenanceEnabled(i) && !s.desk.maintenance
    requires i.identityRunning && i.show.r == OsResult.Applied && s.desk.locallyLocked && !s.desk.commandGap
    requires s.desk.recovery.Some? && s.desk.recovery.value.lease.cursor <= s.desk.recovery.value.applied
    requires Waiting(s.desk.recovery.value.lease, i.show.b)
    ensures TickCore(s.desk, i).ok == i.healthWritten
    ensures var d := TickCore(s.desk, i).d;
            d.view == View(Login, s.desk.recovery.value.lease.assignmentId) && d.enforcer.os == {} && d.locallyLocked &&
            d.recovery == s.desk.recovery
  {
    ReachableLock(s);
  }

  /** Whatever shows an assignment: it was waiting, and every command was applied. */
  lemma ShownIsWaiting(d: Desk, i: ShowInput)
    requires d.recovery.Some? && ShowAssignment(d, i).d.view != d.view
    ensures var l := d.recovery.value.lease;
            && l.directive == LockDirective && l.assignmentExpiresAt.Some? && i.a < l.assignmentExpiresAt.value
            && i.b < l.expiresAt && !d.maintenance && !d.commandGap && l.cursor <= d.recovery.value.applied
            && ShowAssignment(d, i).d.view == View(Login, l.assignmentId) && l.assignmentId.Some?
  {
  }

  // ---------- applying a lease ----------

  /** The installed lease is applied to the session at play: it stays, as long as the lease is for that session, entitled, not
      blocked, and every command is applied. */
  lemma ApplyLeavesEntitledAlone(s: Station, i: ApplyInput)
    requires Reachable(s) && s.running && s.desk.recovery.Some? && ApplyTimes(s.clock, i) && s.desk.view.mode == Active
    requires var r := s.desk.recovery.value;
             Entitled(r.lease, i.deadline) && r.lease.cursor <= r.applied && r.lease.sessionId == s.desk.view.session
    requires !s.desk.commandGap
    ensures ApplyLease(s.desk, i) == Out(s.desk, true)
  {
    ReachableLock(s);
    UnlockedMeansEntitled(s.desk.recovery.value.lease, s.id, i.deadline);
  }

  /** Commands are missing, the session of the lease is blocked, or the lease is over and offers no assignment. */
  ghost predicate NotDue(d: Desk, now: Time)
    requires d.recovery.Some?
  {
    var r := d.recovery.value;
    || r.applied < r.lease.cursor || d.commandGap
    || (r.lease.sessionId.Some? && r.blocked == r.lease.sessionId)
    || (r.lease.assignmentId.None? && !Entitled(r.lease, now))
  }

  /** In every other case outside maintenance a normal application ends outside the Active mode: locked when commands are missing,
      the session is blocked or the lease is over, and showing an assignment or waiting for a login otherwise. */
  lemma ApplyOtherwise(s: Station, i: ApplyInput)
    requires Reachable(s) && s.running && s.desk.recovery.Some? && ApplyTimes(s.clock, i) && !s.desk.maintenance
    requires ApplyLease(s.desk, i).ok
    ensures var r, e := s.desk.recovery.value, ApplyLease(s.desk, i).d;
            && (NotDue(s.desk, i.deadline) ==> LockedDown(s.desk, e))
            && (e.view.mode == Active ==> e == s.desk && r.lease.sessionId == e.view.session)
            && (r.lease.cursor <= r.applied && !s.desk.commandGap && r.blocked != r.lease.sessionId && Entitled(r.lease, i.deadline) &&
                !(s.desk.view.mode == Active && s.desk.view.session == r.lease.sessionId) ==>
                  e == s.desk.(view := View(Login, r.lease.sessionId)))
            && (r.lease.cursor <= r.applied && !s.desk.commandGap && Waiting(r.lease, i.show.b) ==>
                  e.view == View(Login, r.lease.assignmentId) && e.locallyLocked && e.enforcer.os == {})
  {
    ReachableLock(s);
    UnlockedMeansEntitled(s.desk.recovery.value.lease, s.id, i.deadline);
    LockLocalKeeps(s.desk, i.lock);
  }

  // ---------- the end of a login ----------

  /** What a login needs at its end: the lease is for the session the server named and neither blocked nor over, the server's
      deadline is ahead, every command is applied, no gap and no maintenance; the applications are valid and the script
      succeeds, unless the policy is already active. */
  ghost predicate LoginDue(d: Desk, i: LoginInput)
    requires d.recovery.Some?
  {
    var r := d.recovery.value;
    && r.lease.sessionId == Some(i.session) && r.blocked != Some(i.session) && r.lease.cursor <= r.applied
    && !d.commandGap && !d.maintenance && i.t1 < i.endsAt && Entitled(r.lease, i.t3)
    && ((i.valid && i.r == OsResult.Applied) || (d.enforcer.active && d.enforcer.applied == Some(true)))
  }

  /** A login that meets a view outside the Active mode ends Active exactly then, and in that case the lock is off in memory and in
      the record, and Windows allows exactly the applications of the policy. */
  lemma LoginSucceedsIff(s: Station, i: LoginInput)
    requires Reachable(s) && Enabled(s, EndLogin(i)) && s.desk.view.mode != Active
    ensures var d := FinishLogin(s.desk, i).d;
            && (d.view.mode == Active <==> LoginDue(s.desk, i))
            && (d.view.mode == Active ==>
                  && d.view == View(Active, Some(i.session)) && !d.locallyLocked && d.enforcer.active
                  && d.recovery == Some(s.desk.recovery.value.(locallyLocked := false))
                  && (forall p :: p in d.enforcer.os <==> exists c :: c in d.enforcer.allowed && d.enforcer.allowed[c].path == p))
  {
    ReachableLock(s);
    var r := s.desk.recovery.value;
    UnlockedMeansEntitled(r.lease, s.id, i.t2);
    UnlockedMeansEntitled(r.lease, s.id, i.t3);
    LoginOutcome(s.desk, i);
  }

  lemma LoginOutcome(d: Desk, i: LoginInput)
    requires DeskInv(d) && d.recovery.Some? && d.view.mode != Active
    ensures var e := FinishLogin(d, i).d;
            && (e.view.mode == Active <==> LoginWon(d, i))
            && (LoginWon(d, i) ==>
                  && e.view == View(Active, Some(i.session)) && !e.locallyLocked && e.enforcer.active
                  && e.recovery == Some(d.recovery.value.(locallyLocked := false))
                  && e.enforcer.allowed == d.enforcer.allowed && e.enforcer.os == Paths(e.enforcer.allowed))
  {
    if DeadlineInLogin(d, i) {
      LockLocalKeeps(d.(enforcer := SessionActive(d.enforcer, true, i.valid, i.r).state, locallyLocked := false), i.lock);
    }
  }

  // ---------- blocked sessions ----------

  /** Exactly an ACTIVE lease for the session that covers the number, above any pending lock, makes a start count; it lifts the
      block and the pending lock. */
  lemma StartOutcome(r: Recovery, session: Id, sequence: int)
    ensures var due := r.lease.directive == ActiveDirective && r.lease.sessionId == Some(session) &&
                       0 < sequence <= r.lease.cursor && (r.pendingLock.Some? ==> r.pendingLock.value < sequence);
            AcceptStarted(r, session, sequence) ==
            if due then r.(blocked := None, pendingLock := None, pendingLockSession := None) else r
  {
  }

  /** Within a process a block is lifted by nothing but an accepted start, for the session of an ACTIVE lease; anything else can
      only replace it by the block of another session. */
  lemma BlockIsLiftedByStart(s: Station, a: Action)
    requires Reachable(s) && Enabled(s, a) && !a.CrashNow? && !a.BootNow?
    requires s.desk.recovery.Some? && s.desk.recovery.value.blocked.Some?
    ensures Do(s, a).desk.recovery.Some?
    ensures Do(s, a).desk.recovery.value.blocked.None? ==>
              && a.OnCommand? && a.command.StartCommand?
              && var l := s.desk.recovery.value.lease;
                 l.directive == ActiveDirective && l.sessionId == Some(a.command.c.session) && a.command.c.kind == SessionStarted
  {
    ReachableLock(s);
    if Section(a) { SectionKeepsBlock(s, a); } else { OthersKeepBlock(s, a); }
  }

  lemma OthersKeepBlock(s: Station, a: Action)
    requires Enabled(s, a) && !Section(a) && !a.CrashNow? && !a.BootNow?
    requires s.desk.recovery.Some? && s.desk.recovery.value.blocked.Some?
    ensures Do(s, a).desk.recovery.Some?
    ensures !(a.OnCommand? && a.command.StartCommand?) ==> Do(s, a).desk.recovery.value.blocked.Some?
    ensures a.OnCommand? && a.command.StartCommand? && Do(s, a).desk.recovery.value.blocked.None? ==>
              StartAccepted(s.desk.recovery.value, a.command.c.session, a.command.c.sequence)
  {
    if a.OnCommand? {
      CommandKeepsBlock(s, a.command);
    } else if a.OnLockAck? {
      LockAckKeepsBlock(s, a.ack);
    }
  }

  lemma CommandKeepsBlock(s: Station, k: CommandStep)
    requires CommandEnabled(s, k) && s.desk.recovery.value.blocked.Some?
    ensures DoCommand(s, k).desk.recovery.Some?
    ensures DoCommand(s, k).desk.recovery.value.blocked.None? ==>
              k.StartCommand? && StartAccepted(s.desk.recovery.value, k.c.session, k.c.sequence)
  {
  }

  lemma LockAckKeepsBlock(s: Station, k: LockAckStep)
    requires LockAckEnabled(s, k)
    ensures DoLockAck(s, k).desk.recovery.Some?
    ensures DoLockAck(s, k).desk.recovery.value.blocked == s.desk.recovery.value.blocked
  {
  }

  lemma SectionKeepsBlock(s: Station, a: Action)
    requires LockInv(s) && Enabled(s, a) && Section(a) && s.desk.recovery.Some? && s.desk.recovery.value.blocked.Some?
    ensures Do(s, a).desk.recovery.Some? && Do(s, a).desk.recovery.value.blocked.Some?
  {
    SectionKeepsLock(s, a);
    match a
    case Tick(i) => TickKeeps(s.desk, i);
    case Lock(i) => LockLocalKeeps(s.desk, i);
    case UseLease(i) => ApplyLeaseKeeps(s.desk, i);
    case EndLogin(i) =>
    case UpdatePolicy(_, _, _, _) =>
  }
}
