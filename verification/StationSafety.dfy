/** Invariants of the station protocol over every run: the active state, entitlement, and truthful locking. */
module StationSafety {
  import opened Options
  import opened Leases
  import opened PolicyEnforcement
  import opened StationProtocol

  /** While stateSync is free: the cache is coherent, a local lock means that the policy is inactive and that the record says
      so, and an Active view belongs to an unblocked session of a station that is neither locally locked nor in maintenance. */
  ghost predicate DeskInv(d: Desk) {
    && Coherent(d.enforcer)
    && (d.locallyLocked ==> !d.enforcer.active && (d.recovery.Some? ==> d.recovery.value.locallyLocked))
    && (d.enforcer.active ==> d.recovery.Some?)
    && (d.view.mode == Active ==>
          && d.recovery.Some?
          && !d.locallyLocked
          && !d.maintenance
          && d.view.session.Some?
          && d.recovery.value.blocked != d.view.session)
  }

  /** In addition every record holds a lease that passed the field checks, and a stopped station has no memory. */
  ghost predicate LockInv(s: Station) {
    && DeskInv(s.desk)
    && (s.desk.recovery.Some? ==> FieldsAccepted(s.desk.recovery.value.lease, s.id))
    && (s.disk.Some? ==> FieldsAccepted(s.disk.value.lease, s.id))
    && (!s.running ==> s == Crash(s))
  }

  /** The records differ at most in the blocked session and in LocallyLocked. */
  ghost predicate SameRecord(r: Option<Recovery>, q: Option<Recovery>) {
    && (r.None? <==> q.None?)
    && (r.Some? ==> q.value == r.value.(blocked := q.value.blocked, locallyLocked := q.value.locallyLocked))
  }

  /** The section changes nothing but the view, the local lock, the maintenance flag and the enforcer; of the recovery
      record it may only set LocallyLocked and, from the Active mode, block a session, and that only with an inactive policy.
      It never enters the Active mode. */
  ghost predicate Quiet(d: Desk, e: Desk) {
    && e.commandGap == d.commandGap
    && SameRecord(d.recovery, e.recovery)
    && (d.recovery.Some? && d.recovery.value.locallyLocked ==> e.recovery.value.locallyLocked)
    && (d.recovery.Some? && d.view.mode != Active ==> e.recovery.value.blocked == d.recovery.value.blocked)
    && (d.recovery.Some? && d.recovery.value.blocked.Some? ==> e.recovery.value.blocked.Some?)
    && (e.recovery == d.recovery || !e.enforcer.active)
    && (d.locallyLocked ==> e.locallyLocked)
    && (e.view.mode == Active ==> e.view == d.view)
    && (!d.enforcer.active ==> !e.enforcer.active)
    && (!d.enforcer.active && d.enforcer.os == {} ==> e.enforcer.os == {})
    && e.enforcer.version == d.enforcer.version
    && e.enforcer.allowed == d.enforcer.allowed
  }

  // ---------- critical sections keep the desk invariant and are quiet ----------

  lemma LockLocalKeeps(d: Desk, i: LockInput)
    requires DeskInv(d)
    ensures DeskInv(LockLocal(d, i).d) && Quiet(d, LockLocal(d, i).d)
    ensures LockLocal(d, i).d.maintenance == d.maintenance
    ensures LockLocal(d, i).ok ==>
              LockLocal(d, i).d.locallyLocked && LockLocal(d, i).d.view.mode == Locked && LockLocal(d, i).d.enforcer.os == {}
  {
  }

  lemma ShowAssignmentKeeps(d: Desk, i: ShowInput)
    requires DeskInv(d) && d.recovery.Some?
    ensures DeskInv(ShowAssignment(d, i).d) && Quiet(d, ShowAssignment(d, i).d)
    ensures ShowAssignment(d, i).d.maintenance == d.maintenance
    ensures ShowAssignment(d, i).d.locallyLocked == d.locallyLocked
  {
  }

  lemma TickIdentityKeeps(d: Desk, i: TickInput)
    requires DeskInv(d)
    ensures DeskInv(TickIdentity(d, i).d) && Quiet(d, TickIdentity(d, i).d)
    ensures TickIdentity(d, i).d.maintenance == d.maintenance
  {
    var c := IdentityChecked(d.enforcer, i.identityRunning);
    if !c.ok { LockLocalKeeps(d.(enforcer := c.state), i.identityLock); }
  }

  lemma TickExitKeeps(d: Desk, i: TickInput)
    requires DeskInv(d)
    ensures DeskInv(TickExit(d, i).d) && Quiet(d, TickExit(d, i).d)
    ensures TickExit(d, i).d.view == d.view && !TickExit(d, i).d.maintenance
    ensures d.maintenance && i.exitWritten ==> !TickExit(d, i).d.enforcer.active
  {
  }

  lemma TickDeadlineKeeps(d: Desk, i: TickInput)
    requires DeskInv(d)
    ensures DeskInv(TickDeadline(d, i).d) && Quiet(d, TickDeadline(d, i).d)
    ensures TickDeadline(d, i).d.maintenance == d.maintenance
    ensures TickDeadline(d, i).ok && TickDeadline(d, i).d.enforcer.active ==>
              d.recovery.Some? && !MustLock(d.recovery.value.lease, i.deadline)
  {
    if d.recovery.Some? && CanUseAssignment(d, d.recovery.value.lease, i.a, i.b) && d.locallyLocked {
      ShowAssignmentKeeps(d, i.show);
    } else if d.recovery.None? || MustLock(d.recovery.value.lease, i.deadline) {
      LockLocalKeeps(d, i.lock);
      var o := LockLocal(d, i.lock);
      if o.ok && o.d.recovery.Some? { ShowAssignmentKeeps(o.d, i.lockShow); }
    }
  }

  lemma TickMaintenanceKeeps(d: Desk, i: TickInput)
    requires DeskInv(d)
    ensures DeskInv(TickMaintenance(d, i).d) && Quiet(d, TickMaintenance(d, i).d)
  {
  }

  lemma TickOutsideKeeps(d: Desk, i: TickInput)
    requires DeskInv(d)
    ensures DeskInv(TickOutside(d, i).d) && Quiet(d, TickOutside(d, i).d)
    ensures TickOutside(d, i).ok && TickOutside(d, i).d.enforcer.active ==>
              d.recovery.Some? && !MustLock(d.recovery.value.lease, i.deadline)
  {
    TickIdentityKeeps(d, i);
    var o1 := TickIdentity(d, i);
    if o1.ok {
      TickExitKeeps(o1.d, i);
      var o2 := TickExit(o1.d, i);
      if o2.ok { TickDeadlineKeeps(o2.d, i); }
    }
  }

  lemma TickKeeps(d: Desk, i: TickInput)
    requires DeskInv(d)
    ensures DeskInv(TickCore(d, i).d) && Quiet(d, TickCore(d, i).d)
    ensures TickCore(d, i).ok && !MaintenanceEnabled(i) && TickCore(d, i).d.enforcer.active ==>
              d.recovery.Some? && !MustLock(d.recovery.value.lease, i.deadline)
  {
    if MaintenanceEnabled(i) { TickMaintenanceKeeps(d, i); } else { TickOutsideKeeps(d, i); }
  }

  lemma ApplyLeaseKeeps(d: Desk, i: ApplyInput)
    requires DeskInv(d) && d.recovery.Some?
    ensures DeskInv(ApplyLease(d, i).d) && Quiet(d, ApplyLease(d, i).d)
    ensures ApplyLease(d, i).d.maintenance == d.maintenance
  {
    LockLocalKeeps(d, i.lock);
    var o := if d.locallyLocked then Out(d, true) else LockLocal(d, i.lock);
    ShowAssignmentKeeps(o.d, i.show);
  }

  /** The deadline passes between the activation of the policy and the end of the login. */
  predicate DeadlineInLogin(d: Desk, i: LoginInput)
    requires d.recovery.Some?
  {
    !LoginRefused(d, i) && SessionActive(d.enforcer, true, i.valid, i.r).ok && MustLock(d.recovery.value.lease, i.t3)
  }

  lemma FinishLoginKeeps(d: Desk, i: LoginInput)
    requires DeskInv(d) && d.recovery.Some?
    ensures DeskInv(FinishLogin(d, i).d) && SameRecord(d.recovery, FinishLogin(d, i).d.recovery)
  {
    if DeadlineInLogin(d, i) {
      LockLocalKeeps(d.(enforcer := SessionActive(d.enforcer, true, i.valid, i.r).state, locallyLocked := false), i.lock);
    }
  }

  // ---------- every step, every run ----------

  /** The critical sections: these actions drive the enforcer, the view and the local lock. */
  predicate Section(a: Action) { a.Tick? || a.Lock? || a.UseLease? || a.EndLogin? || a.UpdatePolicy? }

  /** The desk at the end of a section, before a won login is saved. */
  function SectionDesk(s: Station, a: Action): Desk
    requires Enabled(s, a) && Section(a)
  {
    match a
    case Tick(i) => TickCore(s.desk, i).d
    case Lock(i) => LockLocal(s.desk, i).d
    case UseLease(i) => ApplyLease(s.desk, i).d
    case EndLogin(i) => FinishLogin(s.desk, i).d
    case UpdatePolicy(p, valid, r, saved) =>
      s.desk.(enforcer := PolicyUpdated(s.desk.enforcer, p, valid, r, saved).state)
  }

  lemma SectionKeepsLock(s: Station, a: Action)
    requires LockInv(s) && Enabled(s, a) && Section(a)
    ensures LockInv(Do(s, a))
    ensures SameRecord(s.desk.recovery, SectionDesk(s, a).recovery)
    ensures !a.EndLogin? && SectionDesk(s, a).view.mode == Active ==> s.desk.view.mode == Active
  {
    match a
    case Tick(i) => TickKeeps(s.desk, i);
    case Lock(i) => LockLocalKeeps(s.desk, i);
    case UseLease(i) => ApplyLeaseKeeps(s.desk, i);
    case EndLogin(i) => FinishLoginKeeps(s.desk, i);
    case UpdatePolicy(p, valid, r, saved) => CallKeepsCoherence(s.desk.enforcer, UpdateCall(p, valid, r, saved));
  }

  lemma CommandKeepsLock(s: Station, k: CommandStep)
    requires LockInv(s) && s.running && CommandEnabled(s, k)
    ensures LockInv(DoCommand(s, k))
    ensures DoCommand(s, k).desk.(recovery := s.desk.recovery) == s.desk
  {
  }

  lemma LockAckKeepsLock(s: Station, k: LockAckStep)
    requires LockInv(s) && s.running && LockAckEnabled(s, k)
    ensures LockInv(DoLockAck(s, k))
    ensures DoLockAck(s, k).desk.(recovery := s.desk.recovery) == s.desk
  {
  }

  lemma BookkeepingKeepsLock(s: Station, a: Action)
    requires LockInv(s) && Enabled(s, a) && !Section(a) && !a.CrashNow? && !a.BootNow?
    ensures LockInv(Do(s, a))
  {
    match a
    case OnCommand(k) => CommandKeepsLock(s, k);
    case OnLockAck(k) => LockAckKeepsLock(s, k);
    case _ =>
  }

  lemma StepKeepsLock(s: Station, a: Action)
    requires LockInv(s) && Enabled(s, a)
    ensures LockInv(Do(s, a))
  {
    if Section(a) {
      SectionKeepsLock(s, a);
    } else if !a.CrashNow? && !a.BootNow? {
      BookkeepingKeepsLock(s, a);
    }
  }

  lemma {:induction false} RunKeepsLock(s: Station, run: seq<Action>)
    requires LockInv(s) && Run(s, run)
    ensures LockInv(End(s, run))
    decreases |run|
  {
    if run != [] {
      StepKeepsLock(s, run[0]);
      RunKeepsLock(Do(s, run[0]), run[1..]);
    }
  }

  lemma ReachableLock(s: Station)
    requires Reachable(s)
    ensures LockInv(s)
  {
    var id, os, run :| Run(Initial(id, os), run) && End(Initial(id, os), run) == s;
    RunKeepsLock(Initial(id, os), run);
  }

  // ---------- the active state and entitlement ----------

  /** In every reachable state an Active view for a session means a loaded record, no local lock and a session that is
      not blocked, although Tick may have locked the station between any two steps of Refresh or Handle. */
  lemma ActiveState(s: Station)
    requires Reachable(s) && s.desk.view.mode == Active
    ensures s.running && s.desk.recovery.Some? && !s.desk.locallyLocked
    ensures s.desk.view.session.Some? && s.desk.recovery.value.blocked != s.desk.view.session
  {
    ReachableLock(s);
  }

  /** Entitlement safety: when a Tick outside maintenance ends normally in any reachable state, an active policy is backed
      by a lease that was not over at the trusted time the Tick sampled; and so is anything Windows still allows after a
      verified run of the policy script. */
  lemma EntitlementSafety(s: Station, i: TickInput)
    requires Reachable(s) && s.running && TickTimes(s.clock, i)
    requires TickCore(s.desk, i).ok && !MaintenanceEnabled(i)
    ensures TickCore(s.desk, i).d.enforcer.active ==>
              s.desk.recovery.Some? && Entitled(s.desk.recovery.value.lease, i.deadline)
    ensures TickCore(s.desk, i).d.enforcer.verified && TickCore(s.desk, i).d.enforcer.os != {} ==>
              s.desk.recovery.Some? && Entitled(s.desk.recovery.value.lease, i.deadline)
  {
    ReachableLock(s);
    TickKeeps(s.desk, i);
    if s.desk.recovery.Some? { UnlockedMeansEntitled(s.desk.recovery.value.lease, s.id, i.deadline); }
  }

  // ---------- entitlement of what Windows itself allows ----------

  /** Tick wants to show the waiting assignment of a locked station and returns early: the assignment has just expired, or
      commands are missing. The policy script is then not run, whatever Windows holds. */
  predicate ShowStalls(d: Desk, i: TickInput) {
    && d.recovery.Some? && d.locallyLocked
    && var r := d.recovery.value;
       CanUseAssignment(d, r.lease, i.a, i.b) &&
       (!CanUseAssignment(d, r.lease, i.show.a, i.show.b) || d.commandGap || r.applied < r.lease.cursor)
  }

  /** The same for the whole Tick: nothing before that point runs the script either. */
  predicate Stalls(d: Desk, i: TickInput) {
    !d.maintenance && IdentityChecked(d.enforcer, i.identityRunning).ok && ShowStalls(d, i)
  }

  /** Windows allows nothing, or what it allows is backed by a lease that is not over. */
  ghost predicate Backed(os: set<string>, r: Option<Recovery>, now: Time) {
    os == {} || (r.Some? && Entitled(r.value.lease, now))
  }

  lemma ShowWindows(d: Desk, i: ShowInput)
    requires DeskInv(d) && d.recovery.Some? && ShowAssignment(d, i).ok
    ensures var r := d.recovery.value;
            ShowAssignment(d, i).d.enforcer.os ==
            if !CanUseAssignment(d, r.lease, i.a, i.b) || d.commandGap || r.applied < r.lease.cursor then d.enforcer.os else {}
  {
  }

  lemma TickDeadlineWindows(d: Desk, i: TickInput, station: Id)
    requires DeskInv(d) && TickDeadline(d, i).ok
    requires d.recovery.Some? ==> FieldsAccepted(d.recovery.value.lease, station)
    ensures Backed(TickDeadline(d, i).d.enforcer.os, d.recovery, i.deadline) <==> !(ShowStalls(d, i) && d.enforcer.os != {})
  {
    if d.recovery.Some? {
      UnlockedMeansEntitled(d.recovery.value.lease, station, i.deadline);
      if CanUseAssignment(d, d.recovery.value.lease, i.a, i.b) && d.locallyLocked { ShowWindows(d, i.show); }
    }
    LockLocalKeeps(d, i.lock);
    var o := LockLocal(d, i.lock);
    if o.ok && o.d.recovery.Some? { ShowAssignmentKeeps(o.d, i.lockShow); }
  }

  lemma BeforeDeadlineWindows(d: Desk, i: TickInput)
    requires DeskInv(d) && TickIdentity(d, i).ok && TickExit(TickIdentity(d, i).d, i).ok
    ensures var e := TickExit(TickIdentity(d, i).d, i).d;
            && DeskInv(e) && SameRecord(d.recovery, e.recovery)
            && (ShowStalls(e, i) && e.enforcer.os != {} <==> Stalls(d, i) && d.enforcer.os != {})
  {
    TickIdentityKeeps(d, i);
    TickExitKeeps(TickIdentity(d, i).d, i);
    var c := IdentityChecked(d.enforcer, i.identityRunning);
    if !c.ok { LockLocalKeeps(d.(enforcer := c.state), i.identityLock); }
  }

  /** Entitlement of what Windows itself allows, in any reachable state and for any Tick outside maintenance that ends normally:
      it holds exactly unless the Tick stalls while Windows allows something, which can only be before a verified run of
      the policy script. */
  lemma WindowsEntitlementIff(s: Station, i: TickInput)
    requires Reachable(s) && s.running && TickTimes(s.clock, i)
    requires TickCore(s.desk, i).ok && !MaintenanceEnabled(i)
    ensures Backed(TickCore(s.desk, i).d.enforcer.os, s.desk.recovery, i.deadline) <==>
              !(Stalls(s.desk, i) && s.desk.enforcer.os != {})
    ensures Stalls(s.desk, i) && s.desk.enforcer.os != {} ==> !s.desk.enforcer.verified
  {
    ReachableLock(s);
    BeforeDeadlineWindows(s.desk, i);
    TickDeadlineWindows(TickExit(TickIdentity(s.desk, i).d, i).d, i, s.id);
  }

  /** The lock that Tick, Refresh, Handle and Shutdown share: in any reachable state, if it ends normally, the view is
      locked, the local lock is set and Windows allows nothing. */
  lemma LockLocalCloses(s: Station, i: LockInput)
    requires Reachable(s) && s.running && LockLocal(s.desk, i).ok
    ensures var d := LockLocal(s.desk, i).d;
            d.view.mode == Locked && d.locallyLocked && !d.enforcer.active && d.enforcer.os == {}
  {
    ReachableLock(s);
    LockLocalKeeps(s.desk, i);
  }
}
