/** ClientRuntime.cs as an object: its fields, its critical sections, and the flows Refresh and Handle.

    Each critical section is proved equal to one action of the station machine, and each flow is proved to take only
    enabled actions, with any number of Ticks between any two of them. The abstract state of the object is therefore
    always a reachable state of the machine, which carries every theorem about reachable states over to this code. */
module ClientRuntimeObject {
  import opened Options
  import StableSort
  import opened Leases
  import opened PolicyEnforcement
  import opened TrustedClock
  import opened StationProtocol
  import opened StationSafety
  import opened StationHistory
  import opened StationPrecision

  /** Exceptions, by the catch clause that receives them: HTTP errors, timeouts, cryptographic errors, I/O and invalid
      operations, and malformed data. A Refusal is an early, regular return. */
  datatype Fault = NoFault | Refusal | HttpFault(unauthorized: bool) | TimeoutFault | CryptoFault | PolicyFault | DataFault

  /** Only Ticks and the passing of time lie between the two states. */
  ghost predicate TicksOnly(s: Station, t: Station) {
    t == s.(desk := t.desk, clock := t.clock) && s.clock <= t.clock && Quiet(s.desk, t.desk)
  }

  /** No maintenance, the identity service runs, and the lease is entitled at the time the Tick samples. */
  ghost predicate AtPlay(d: Desk, i: TickInput) {
    !MaintenanceEnabled(i) && !d.maintenance && i.identityRunning && d.recovery.Some? && Entitled(d.recovery.value.lease, i.deadline)
  }

  /** What a Tick in a reachable state does, seen from outside. */
  lemma TickFromOutside(s: Station, i: TickInput)
    requires Reachable(s) && s.running && TickTimes(s.clock, i)
    ensures TicksOnly(s, Do(s, Action.Tick(i)))
    ensures var t := Do(s, Action.Tick(i));
            TickCore(s.desk, i).ok && !MaintenanceEnabled(i) && t.desk.enforcer.active ==>
              t.desk.recovery.Some? && Entitled(t.desk.recovery.value.lease, i.deadline)
    ensures AtPlay(s.desk, i) ==> TickCore(s.desk, i) == Out(s.desk, i.healthWritten)
  {
    ReachableLock(s);
    TickKeeps(s.desk, i);
    if TickCore(s.desk, i).ok && !MaintenanceEnabled(i) { EntitlementSafety(s, i); }
    if AtPlay(s.desk, i) { TickLeavesEntitledAlone(s, i); }
  }

  /** What admits a login at time `now`: no maintenance, every command of the lease applied, and either a waiting assignment
      or a running session that is neither blocked nor over. */
  ghost predicate Entrance(d: Desk, now: Time) {
    && d.recovery.Some? && !d.maintenance && !d.commandGap
    && var r := d.recovery.value;
       r.lease.cursor <= r.applied &&
       (Waiting(r.lease, now) || (r.blocked != r.lease.sessionId && Entitled(r.lease, now)))
  }

  /** A login is admitted if this holds until its last clock read, and only if it holds at the beginning. */
  lemma AdmittedAtEntrance(d: Desk, station: Id, now: Time, a: Time, b: Time, t: Time)
    requires d.recovery.Some? && FieldsAccepted(d.recovery.value.lease, station) && now <= a <= b <= t
    ensures LoginAdmitted(d, a, b, t) ==> Entrance(d, now)
    ensures Entrance(d, t) ==> LoginAdmitted(d, a, b, t)
  {
    UnlockedMeansEntitled(d.recovery.value.lease, station, t);
    UnlockedMeansEntitled(d.recovery.value.lease, station, now);
  }

  /** Within a process time does not go back. */
  lemma LeadsForward(s: Station, t: Station)
    requires Reachable(s) && Leads(s, t)
    ensures s.clock <= t.clock
  {
    ReachableLog(s);
    var run :| Run(s, run) && SameProcess(run) && End(s, run) == t;
    RunGoesForward(s, run);
  }

  /** A view in the Active mode is for the session of the installed lease, with every command applied. */
  ghost predicate Standing(d: Desk) {
    d.view.mode == Active ==>
      d.recovery.Some? && !d.commandGap && d.recovery.value.lease.cursor <= d.recovery.value.applied &&
      d.recovery.value.lease.sessionId == d.view.session
  }

  lemma QuietStands(d: Desk, e: Desk)
    requires Quiet(d, e) && Standing(d)
    ensures Standing(e)
  {
  }

  lemma ApplyStands(s: Station, i: ApplyInput)
    requires Reachable(s) && s.running && s.desk.recovery.Some? && ApplyTimes(s.clock, i) && ApplyLease(s.desk, i).ok
    ensures Standing(ApplyLease(s.desk, i).d)
  {
    ReachableLock(s);
    if !s.desk.maintenance { ApplyOtherwise(s, i); }
    LockLocalKeeps(s.desk, i.lock);
  }

  lemma SmoothApply(d: Desk, i: ApplyInput)
    requires d.recovery.Some? && i.lock == SMOOTH && i.show.r == OsResult.Applied
    ensures ApplyLease(d, i).ok
  {
  }

  lemma TicksOnlyOn(s: Station, t: Station, u: Station)
    requires TicksOnly(s, t) && TicksOnly(t, u)
    ensures TicksOnly(s, u)
  {
  }

  // ---------- the surroundings: any answer, any time ----------

  method AnyTick(now: Time) returns (i: TickInput)
    ensures TickTimes(now, i)
  {
    i := *;
    var a: nat, b: nat, c: nat, d: nat := *, *, *, *;
    var t0, t1, t2, t3 := now + a, now + a + b, now + a + b + c, now + a + b + c + d;
    i := i.(t0 := t0, a := t0, b := t1, show := i.show.(a := t1, b := t2), deadline := t2,
            lockShow := i.lockShow.(a := t2, b := t3));
  }

  /** A request that fails on the way: rejected, unreachable or timed out. */
  method AnyNetworkFault() returns (f: Fault)
    ensures f.HttpFault? || f.TimeoutFault?
  {
    var timedOut: bool, unauthorized: bool := *, *;
    f := if timedOut then TimeoutFault else HttpFault(unauthorized);
  }

  function BySequence(): (Command, Command) -> bool {
    (a: Command, b: Command) => a.sequence <= b.sequence
  }

  ghost predicate InOrder(commands: seq<Command>, fetched: seq<Command>) {
    (forall i, j :: 0 <= i < j < |commands| ==> commands[i].sequence <= commands[j].sequence) &&
    forall c :: c in commands <==> c in fetched
  }

  /** OrderBy(x => x.Sequence). */
  lemma SortedIsInOrder(fetched: seq<Command>)
    ensures InOrder(StableSort.Sorted(BySequence(), fetched), fetched)
  {
    var commands := StableSort.Sorted(BySequence(), fetched);
    StableSort.SortedSorts(BySequence(), fetched);
    forall c ensures c in commands <==> c in fetched {
      assert c in multiset(commands) <==> c in multiset(fetched);
    }
    forall i, j | 0 <= i < j < |commands| ensures commands[i].sequence <= commands[j].sequence {
      assert BySequence()(commands[i], commands[j]);
    }
  }

  class ClientRuntime {
    const id: Id
    const policy: StationPolicyEnforcer
    const trusted: TrustedLeaseClock
    /** Whether the surroundings answer every request of a flow well: nothing is lost, nothing fails. Either way other threads'
        Ticks may fail. */
    const smooth: bool
    var view: View
    var recovery: Option<Recovery>
    var locallyLocked: bool
    var commandGap: bool
    var maintenance: bool
    /** The snapshot file. */
    var snapshot: Option<Recovery>
    // The server and the history variables of the machine.
    ghost var admitted: bool
    ghost var intent: AckIntent
    ghost var journal: Journal
    ghost var saveStatus: SaveStatus
    ghost var diskJournal: Journal
    ghost var server: Server

    ghost function TheDesk(): Desk reads this, policy {
      Desk(view, recovery, locallyLocked, commandGap, maintenance, policy.View())
    }

    ghost function Abs(): Station reads this, policy, trusted {
      Station(id, true, TheDesk(), trusted.Value(), admitted, intent, journal, saveStatus, snapshot, diskJournal, server)
    }

    ghost predicate Valid() reads this, policy, trusted { trusted.Valid() && Reachable(Abs()) }

    /** No flow is under way: the last applied number has been offered to the disk, no lock acknowledgement is open. */
    ghost predicate Ready() reads this, policy, trusted {
      Valid() && saveStatus != NotTried && intent == NoIntent
    }

    /** A new process over a stopped station: the clock is anchored at the floor, the record is marked locally locked. */
    constructor (ghost before: Station, id: Id, stored: Option<Recovery>, held: set<string>, wall: Time, timestamp: Time,
                 smooth: bool)
      requires Reachable(before) && !before.running
      requires before.id == id && before.disk == stored
      ensures Ready() && Abs() == Do(before, BootNow(wall, held)) && fresh(policy) && fresh(trusted)
    {
      this.id, this.smooth := id, smooth;
      policy := new StationPolicyEnforcer(held);
      trusted := new TrustedLeaseClock(if stored.Some? then stored.value.floor else wall, wall, wall, timestamp);
      view, locallyLocked, commandGap, maintenance := LOCKED_VIEW, false, false, false;
      recovery := if stored.Some? then Some(stored.value.(locallyLocked := true)) else None;
      snapshot := stored;
      admitted, intent, journal, saveStatus := before.admitted, before.intent, before.journal, before.saveStatus;
      diskJournal, server := before.diskJournal, before.server;
      new;
      ReachableLock(before);
      ReachableStep(before, BootNow(wall, held));
    }

    // ---------- critical sections ----------

    method Lock(i: LockInput) returns (ok: bool)
      modifies `view, `recovery, `locallyLocked, policy
      ensures Out(TheDesk(), ok) == LockLocal(old(TheDesk()), i)
    {
      if locallyLocked && view.mode == Locked {
        ok := policy.SetSessionActive(false, true, i.r);
        return;
      }
      if !i.stopped { return false; }
      ok := policy.SetSessionActive(false, true, i.r);
      if !ok || !i.stoppedAgain { return false; }
      var customerWasActive, endedSession := view.mode == Active, view.session;
      view := LOCKED_VIEW;
      if customerWasActive && recovery.Some? && endedSession.Some? {
        recovery := Some(recovery.value.(blocked := endedSession, locallyLocked := true));
      }
      if customerWasActive && endedSession.Some? && !i.reviewed { return false; }
      if recovery.Some? { recovery := Some(recovery.value.(locallyLocked := true)); }
      locallyLocked := true;
    }

    method Show(i: ShowInput) returns (ok: bool)
      requires recovery.Some?
      modifies `view, policy
      ensures Out(TheDesk(), ok) == ShowAssignment(old(TheDesk()), i)
    {
      var lease := recovery.value.lease;
      if !Assignable(lease, i.a, i.b) || commandGap || recovery.value.applied < lease.cursor { return true; }
      ok := policy.SetSessionActive(false, true, i.r);
      if ok { view := View(Login, lease.assignmentId); }
    }

    predicate Assignable(l: Lease, a: Time, b: Time)
      reads this, policy
      ensures Assignable(l, a, b) == CanUseAssignment(TheDesk(), l, a, b)
    {
      && !maintenance && l.directive == LockDirective && l.assignmentId.Some?
      && l.assignmentExpiresAt.Some? && a < l.assignmentExpiresAt.value && b < l.expiresAt
    }

    method TickBody(i: TickInput) returns (ok: bool)
      modifies `view, `recovery, `locallyLocked, `maintenance, policy
      ensures Out(TheDesk(), ok) == TickCore(old(TheDesk()), i)
    {
      if i.maintenanceUntil.Some? && i.t0 < i.maintenanceUntil.value {
        ok := TickInMaintenance(i);
      } else {
        ok := policy.CheckApplicationIdentity(i.identityRunning);
        if !ok { ok := Lock(i.identityLock); }
        if ok { ok := LeaveMaintenance(i); }
        if ok { ok := CheckDeadline(i); }
      }
      ok := ok && i.healthWritten;
    }

    method TickInMaintenance(i: TickInput) returns (ok: bool)
      modifies `view, `maintenance, policy
      ensures Out(TheDesk(), ok) == TickMaintenance(old(TheDesk()), i)
    {
      ok := policy.CheckApplicationIdentity(i.identityRunning);
      if !ok { ok := policy.ReapplyLocked(i.reapply); }
      if !ok || (!maintenance && !i.stopped) { return false; }
      maintenance := true;
      view := View(Maintenance, None);
    }

    method LeaveMaintenance(i: TickInput) returns (ok: bool)
      modifies `maintenance, policy
      ensures Out(TheDesk(), ok) == TickExit(old(TheDesk()), i)
    {
      if !maintenance { return true; }
      maintenance := false;
      if !i.exitWritten { return false; }
      ok := policy.ReapplyLocked(i.reapply);
      ok := ok && i.exitLogged;
    }

    method CheckDeadline(i: TickInput) returns (ok: bool)
      modifies `view, `recovery, `locallyLocked, policy
      ensures Out(TheDesk(), ok) == TickDeadline(old(TheDesk()), i)
    {
      if recovery.Some? && Assignable(recovery.value.lease, i.a, i.b) && locallyLocked {
        ok := Show(i.show);
      } else if recovery.None? || MustLock(recovery.value.lease, i.deadline) {
        ok := Lock(i.lock);
        if ok && recovery.Some? { ok := Show(i.lockShow); }
      } else {
        ok := true;
      }
    }

    // ---------- the critical sections as actions ----------

    /** Tick, under stateSync. Besides being the machine's action it keeps the entitlement promise. */
    method Tick(i: TickInput) returns (ok: bool)
      requires Valid() && TickTimes(trusted.Value(), i)
      modifies `view, `recovery, `locallyLocked, `maintenance, policy, trusted
      ensures Valid() && Leads(old(Abs()), Abs()) && Abs() == Do(old(Abs()), Action.Tick(i)) && ok == TickCore(old(TheDesk()), i).ok
      ensures TicksOnly(old(Abs()), Abs())
      ensures ok && !MaintenanceEnabled(i) && policy.active ==>
                recovery.Some? && Entitled(recovery.value.lease, i.deadline)
      ensures AtPlay(old(TheDesk()), i) ==> ok == i.healthWritten && TheDesk() == old(TheDesk())
    {
      ghost var s := Abs();
      TickFromOutside(s, i);
      ok := TickBody(i);
      PassTo(i.lockShow.b);
      Taken(s, Action.Tick(i));
    }

    method LockLocally(i: LockInput) returns (ok: bool)
      requires Valid()
      modifies `view, `recovery, `locallyLocked, policy
      ensures Valid() && Leads(old(Abs()), Abs()) && Abs() == Do(old(Abs()), Action.Lock(i))
      ensures TicksOnly(old(Abs()), Abs())
      ensures ok ==> locallyLocked && view.mode == Locked && policy.os == {}
      ensures i == SMOOTH ==> ok
    {
      ghost var s := Abs();
      ReachableLock(s);
      LockLocalKeeps(s.desk, i);
      ok := Lock(i);
      Taken(s, Action.Lock(i));
    }

    method UpdatePolicy(p: Policy, valid: bool, r: OsResult, saved: bool) returns (ok: bool)
      requires Valid()
      modifies policy
      ensures Valid() && Leads(old(Abs()), Abs()) && Abs() == Do(old(Abs()), Action.UpdatePolicy(p, valid, r, saved))
      ensures ok == PolicyUpdated(old(policy.View()), p, valid, r, saved).ok
    {
      ghost var s := Abs();
      ok := policy.ApplyPolicy(p, valid, r, saved);
      Taken(s, Action.UpdatePolicy(p, valid, r, saved));
    }

    method Observe(serverTime: Time)
      requires Valid()
      modifies trusted
      ensures Valid() && Leads(old(Abs()), Abs()) && Abs() == Do(old(Abs()), Action.Observe(serverTime))
    {
      ghost var s := Abs();
      trusted.Observe(serverTime);
      Taken(s, Action.Observe(serverTime));
    }

    /** The lock block that replaces the record: the lease is new, everything else is carried over. */
    method Install(lease: Lease, origin: Origin)
      requires Valid() && Enabled(Abs(), InstallLease(lease, origin))
      modifies `recovery
      ensures Valid() && Leads(old(Abs()), Abs()) && Abs() == Do(old(Abs()), InstallLease(lease, origin))
    {
      ghost var s := Abs();
      InstallBody(lease, origin);
      Taken(s, InstallLease(lease, origin));
    }

    method InstallBody(lease: Lease, origin: Origin)
      requires trusted.Valid()
      modifies `recovery
      ensures recovery == Some(Installed(old(recovery), lease, trusted.Value(), origin))
    {
      var now := trusted.Now();
      if recovery.Some? {
        var r := recovery.value;
        recovery := Some(Recovery(lease, r.applied, now, r.pendingLock, r.pendingLockSession,
                                  if origin == FromRefresh then r.locallyLocked else true, r.blocked, r.pendingAck));
      } else {
        recovery := Some(Recovery(lease, 0, now, None, None, true, None, None));
      }
    }

    method SetCommandGap(gap: bool)
      requires Valid()
      modifies `commandGap
      ensures Valid() && Leads(old(Abs()), Abs()) && Abs() == Do(old(Abs()), SetGap(gap))
    {
      ghost var s := Abs();
      commandGap := gap;
      Taken(s, SetGap(gap));
    }

    method SaveRecovery(written: bool)
      requires Valid()
      modifies `recovery, `snapshot, `diskJournal, `saveStatus
      ensures Valid() && Leads(old(Abs()), Abs()) && Abs() == Do(old(Abs()), Save(written))
    {
      ghost var s := Abs();
      SaveBody(written);
      Taken(s, Save(written));
    }

    method SaveBody(written: bool)
      requires trusted.Valid()
      modifies `recovery, `snapshot, `diskJournal, `saveStatus
      ensures Abs() == StationProtocol.SaveRecovery(old(Abs()), written)
    {
      if recovery.None? { return; }
      var now := trusted.Now();
      recovery := Some(recovery.value.(floor := now));
      if written {
        snapshot, diskJournal, saveStatus := recovery, journal, Saved;
      } else if saveStatus != Saved {
        saveStatus := Failed;
      }
    }

    /** One step of ReconcileCommands or AckPendingCommand. */
    method OnCommandStep(k: CommandStep)
      requires Valid() && Enabled(Abs(), OnCommand(k))
      modifies `recovery, `journal, `saveStatus, `server
      ensures Valid() && Leads(old(Abs()), Abs()) && Abs() == Do(old(Abs()), OnCommand(k))
    {
      ghost var s := Abs();
      CommandBody(k);
      Taken(s, OnCommand(k));
    }

    method CommandBody(k: CommandStep)
      requires CommandEnabled(Abs(), k)
      modifies `recovery, `journal, `saveStatus, `server
      ensures Abs() == DoCommand(old(Abs()), k)
    {
      var r := recovery.value;
      match k {
        case Ack(answer) => server := ServerAfter(server, r.pendingAck.value, answer);
        case ClearAck => recovery := Some(r.(pendingAck := None));
        case LockCommand(c) =>
          recovery := Some(r.(pendingLock := Some(c.sequence), pendingLockSession := Some(c.session), locallyLocked := true,
                              blocked := Some(c.session)));
        case StartCommand(c) =>
          journal := JournalAfter(r, journal, k);
          if r.lease.directive == ActiveDirective && r.lease.sessionId == Some(c.session) && 0 < c.sequence <= r.lease.cursor &&
             (r.pendingLock.None? || r.pendingLock.value < c.sequence) {
            recovery := Some(r.(blocked := None, pendingLock := None, pendingLockSession := None));
          }
        case CommandApplied(c) =>
          journal, saveStatus := JournalAfter(r, journal, k), NotTried;
          recovery := Some(r.(applied := c.sequence, pendingAck := Some(c.sequence)));
      }
    }

    /** The steps of AckPendingLock that only talk to the server. */
    method OnLockAckMessage(k: LockAckStep)
      requires Valid() && Enabled(Abs(), OnLockAck(k)) && (k == CheckLockAck || k == SendLockAck || k == AbandonAck)
      modifies `intent, `server
      ensures Valid() && Leads(old(Abs()), Abs()) && Abs() == Do(old(Abs()), OnLockAck(k))
    {
      ghost var s := Abs();
      intent, server := DoLockAck(s, k).intent, DoLockAck(s, k).server;
      Taken(s, OnLockAck(k));
    }

    /** The steps of AckPendingLock that end the obligation. */
    method ClearPendingLock(k: LockAckStep)
      requires Valid() && Enabled(Abs(), OnLockAck(k)) && (k == DropLock || k == ClearLock)
      modifies `recovery, `intent, `journal
      ensures Valid() && Leads(old(Abs()), Abs()) && Abs() == Do(old(Abs()), OnLockAck(k))
    {
      ghost var s := Abs();
      ClearBody(k);
      Taken(s, OnLockAck(k));
    }

    method ClearBody(k: LockAckStep)
      requires Enabled(Abs(), OnLockAck(k)) && (k == DropLock || k == ClearLock)
      modifies `recovery, `intent, `journal
      ensures Abs() == DoLockAck(old(Abs()), k)
    {
      ghost var s := Abs();
      recovery := Some(recovery.value.(pendingLock := None, pendingLockSession := None));
      intent, journal := DoLockAck(s, k).intent, DoLockAck(s, k).journal;
    }

    method ApplyInstalledLease(i: ApplyInput) returns (ok: bool)
      requires Valid() && recovery.Some? && ApplyTimes(trusted.Value(), i)
      modifies `view, `recovery, `locallyLocked, policy, trusted
      ensures Valid() && Leads(old(Abs()), Abs()) && Abs() == Do(old(Abs()), UseLease(i)) && ok == ApplyLease(old(TheDesk()), i).ok
      ensures TicksOnly(old(Abs()), Abs())
    {
      ghost var s := Abs();
      ReachableLock(s);
      ApplyLeaseKeeps(s.desk, i);
      ok := ApplyBody(i);
      PassTo(i.deadline);
      Taken(s, UseLease(i));
    }

    method ApplyBody(i: ApplyInput) returns (ok: bool)
      requires recovery.Some?
      modifies `view, `recovery, `locallyLocked, policy
      ensures Out(TheDesk(), ok) == ApplyLease(old(TheDesk()), i)
    {
      var lease := recovery.value.lease;
      if maintenance { return true; }
      if recovery.value.applied < lease.cursor { ok := Lock(i.lock); return; }
      if commandGap || (lease.sessionId.Some? && recovery.value.blocked == lease.sessionId) { ok := Lock(i.lock); return; }
      if Assignable(lease, i.a, i.b) {
        ok := true;
        if !locallyLocked { ok := Lock(i.lock); }
        if ok { ok := Show(i.show); }
        return;
      }
      if MustLock(lease, i.deadline) { ok := Lock(i.lock); return; }
      if view.mode != Active || view.session != lease.sessionId { view := View(Login, lease.sessionId); }
      return true;
    }

    method EndLogin(i: LoginInput) returns (ok: bool)
      requires Valid() && Enabled(Abs(), Action.EndLogin(i))
      modifies this, policy, trusted
      ensures Valid() && Leads(old(Abs()), Abs()) && Abs() == Do(old(Abs()), Action.EndLogin(i))
      ensures ok == (FinishLogin(old(TheDesk()), i).ok && (LoginWon(old(TheDesk()), i) ==> i.saved))
    {
      ghost var s := Abs();
      var won;
      ok, won := LoginBody(i);
      PassTo(i.t3);
      admitted := false;
      assert Abs() == After(s, FinishLogin(s.desk, i).d, i.t3).(admitted := false);
      if won {
        SaveBody(i.saved);
        ok := ok && i.saved;
      }
      Taken(s, Action.EndLogin(i));
    }

    /** The clock is read and shows `t`. */
    method PassTo(t: Time)
      requires trusted.Valid() && trusted.Value() <= t
      modifies trusted
      ensures trusted.Valid() && trusted.Value() == t
    {
      var now := trusted.Now();
      trusted.Elapse(t - now);
    }

    method LoginBody(i: LoginInput) returns (ok: bool, won: bool)
      requires recovery.Some?
      modifies `view, `recovery, `locallyLocked, policy
      ensures Out(TheDesk(), ok) == FinishLogin(old(TheDesk()), i)
      ensures won == LoginWon(old(TheDesk()), i)
    {
      var r := recovery.value;
      if r.lease.sessionId != Some(i.session) || commandGap || r.applied < r.lease.cursor || r.blocked == r.lease.sessionId ||
         i.endsAt <= i.t1 || MustLock(r.lease, i.t2) || maintenance { return true, false; }
      ok := policy.SetSessionActive(true, i.valid, i.r);
      if !ok { return false, false; }
      if MustLock(r.lease, i.t3) {
        locallyLocked := false;
        ok := Lock(i.lock);
        return ok, false;
      }
      locallyLocked := false;
      recovery := Some(r.(locallyLocked := false));
      view := View(Active, Some(i.session));
      return true, true;
    }

    // ---------- flows: any number of Ticks between any two sections ----------

    /** Other threads run: any number of Ticks, normal or failing, and any time passes. */
    method Interfere()
      requires Valid()
      modifies `view, `recovery, `locallyLocked, `maintenance, policy, trusted
      ensures Valid() && Leads(old(Abs()), Abs()) && TicksOnly(old(Abs()), Abs())
    {
      LeadsToSelf(Abs());
      var n: nat := *;
      while n > 0
        invariant Valid() && Leads(old(Abs()), Abs()) && TicksOnly(old(Abs()), Abs())
      {
        ghost var s := Abs();
        TickSomehow();
        LeadsOn(old(Abs()), s, Abs());
        TicksOnlyOn(old(Abs()), s, Abs());
        n := n - 1;
      }
    }

    method TickSomehow()
      requires Valid()
      modifies `view, `recovery, `locallyLocked, `maintenance, policy, trusted
      ensures Valid() && Leads(old(Abs()), Abs()) && TicksOnly(old(Abs()), Abs())
    {
      var now := trusted.Now();
      var i := AnyTick(now);
      var ok := Tick(i);
    }

    /** A foreign call succeeds or not. */
    method Succeeds() returns (b: bool)
      ensures smooth ==> b
    {
      b := *;
      b := b || smooth;
    }

    method LockAnswers() returns (i: LockInput)
      ensures smooth ==> i == SMOOTH
    {
      i := *;
      if smooth { i := SMOOTH; }
    }

    method ScriptAnswer() returns (r: OsResult)
      ensures smooth ==> r == OsResult.Applied
    {
      r := *;
      if smooth { r := OsResult.Applied; }
    }

    method UseAnswers(now: Time) returns (i: ApplyInput)
      ensures ApplyTimes(now, i) && (smooth ==> i.lock == SMOOTH && i.show.r == OsResult.Applied)
    {
      var a: nat, b: nat, c: nat := *, *, *;
      var lock := LockAnswers();
      var r := ScriptAnswer();
      i := ApplyInput(now + a, now + a, lock, ShowInput(now + a + b, now + a + b, r), now + a + b + c);
    }

    method LoginAnswers(now: Time) returns (i: LoginInput)
      ensures LoginTimes(now, i) && (smooth ==> SmoothLogin(i))
    {
      i := *;
      var a: nat, b: nat, c: nat := *, *, *;
      var lock := LockAnswers();
      var r := ScriptAnswer();
      var valid := Succeeds();
      var saved := Succeeds();
      i := i.(t1 := now + a, t2 := now + a + b, t3 := now + a + b + c, valid := valid, r := r, lock := lock, saved := saved);
    }

    static predicate SmoothLogin(i: LoginInput) { i.valid && i.r == OsResult.Applied && i.lock == SMOOTH && i.saved }

    /** The acknowledgement reaches the server, or not, and the answer comes back, or not. */
    method ExchangeAck() returns (settled: bool)
      requires Ready() && recovery.Some? && recovery.value.pendingAck.Some?
      modifies `view, `recovery, `locallyLocked, `maintenance, `journal, `saveStatus, `server, policy, trusted
      ensures Ready() && Leads(old(Abs()), Abs()) && SameRecord(old(recovery), recovery)
      ensures Calm() && (old(locallyLocked) ==> locallyLocked)
      ensures settled ==> recovery.value.pendingAck.value in server.acked + server.pruned
      ensures smooth ==> settled
    {
      ghost var s := Abs();
      ReachableLog(s);
      Interfere();
      ghost var t := Abs();
      var missing: bool := *;
      var received := Succeeds();
      var answered := Succeeds();
      if received || missing {
        var answer := if missing then NotFound else if answered then Confirmed else ResponseLost;
        OnCommandStep(Ack(answer));
        LeadsOn(s, t, Abs());
        settled := missing || answered;
      } else {
        settled := false;
      }
    }

    /** The acknowledged number is cleared and the record saved. */
    method RetireAck() returns (f: Fault)
      requires Ready() && recovery.Some? && recovery.value.pendingAck.Some?
      requires recovery.value.pendingAck.value in server.acked + server.pruned
      modifies this, policy, trusted
      ensures Ready() && Leads(old(Abs()), Abs()) && SameWork(old(recovery), recovery) && UnchangedFlags()
      ensures recovery.value.pendingAck.None? && (f == NoFault || (f == PolicyFault && !smooth))
      ensures f == NoFault ==> snapshot == recovery
      ensures Calm() && (old(locallyLocked) ==> locallyLocked)
    {
      ghost var s := Abs();
      Interfere();
      ghost var t := Abs();
      OnCommandStep(ClearAck);
      LeadsOn(s, t, Abs());
      t := Abs();
      f := SaveAfterTicks();
      LeadsOn(s, t, Abs());
    }

    /** SaveRecovery, whose write may fail. */
    method SaveAfterTicks() returns (f: Fault)
      requires Valid() && recovery.Some?
      modifies this, policy, trusted
      ensures Valid() && Leads(old(Abs()), Abs()) && SameWork(old(recovery), recovery) && UnchangedFlags()
      ensures recovery.value.pendingAck == old(recovery.value.pendingAck)
      ensures (f == NoFault || (f == PolicyFault && !smooth)) && saveStatus != NotTried && intent == old(intent)
      ensures f == NoFault ==> snapshot == recovery
      ensures Calm() && (old(locallyLocked) ==> locallyLocked) && (old(Standing(TheDesk())) ==> Standing(TheDesk()))
    {
      ghost var s := Abs();
      Interfere();
      ghost var t := Abs();
      if Standing(s.desk) { QuietStands(s.desk, t.desk); }
      f := SaveNow();
      LeadsOn(s, t, Abs());
    }

    method SaveNow() returns (f: Fault)
      requires Valid() && recovery.Some?
      modifies `recovery, `snapshot, `diskJournal, `saveStatus
      ensures Valid() && Leads(old(Abs()), Abs()) && saveStatus != NotTried
      ensures recovery == Some(old(recovery.value).(floor := old(trusted.Value())))
      ensures f == NoFault || (f == PolicyFault && !smooth)
      ensures f == NoFault ==> snapshot == recovery
    {
      var written := Succeeds();
      SaveRecovery(written);
      f := if written then NoFault else PolicyFault;
    }

    /** Outside the Active mode nothing enters it and the blocked session stays. */
    twostate predicate Calm() reads this {
      old(view.mode) != Active ==>
        view.mode != Active && (old(recovery).Some? && recovery.Some? ==> recovery.value.blocked == old(recovery.value.blocked))
    }

    /** Flags that only a login changes. */
    twostate predicate UnchangedFlags() reads this { admitted == old(admitted) && commandGap == old(commandGap) }

    /** The same lease, the same applied number, the same pending lock. */
    static ghost predicate SameWork(r: Option<Recovery>, q: Option<Recovery>) {
      r.Some? && q.Some? && q.value.lease == r.value.lease && q.value.applied == r.value.applied &&
      q.value.pendingLock == r.value.pendingLock && q.value.pendingLockSession == r.value.pendingLockSession
    }

    /** AckPendingCommand: when it ends normally nothing is left to acknowledge. */
    method AckPendingCommand() returns (f: Fault)
      requires Ready() && recovery.Some?
      modifies this, policy, trusted
      ensures Ready() && Leads(old(Abs()), Abs()) && SameWork(old(recovery), recovery) && UnchangedFlags()
      ensures f == NoFault && old(recovery.value.pendingAck).Some? ==> snapshot == recovery
      ensures f == NoFault ==> recovery.value.pendingAck.None?
      ensures f != Refusal && (smooth ==> f == NoFault)
      ensures Calm() && (old(locallyLocked) ==> locallyLocked)
    {
      ghost var s := Abs();
      LeadsToSelf(s);
      if recovery.value.pendingAck.None? { return NoFault; }
      var settled := ExchangeAck();
      if !settled {
        f := AnyNetworkFault();
        return;
      }
      ghost var t := Abs();
      f := RetireAck();
      LeadsOn(s, t, Abs());
    }

    /** The number is recorded as applied, saved, and only then acknowledged. */
    method RecordApplied(c: Command) returns (f: Fault)
      requires Ready() && recovery.Some? && recovery.value.pendingAck.None? && Next(recovery.value, c)
      requires c.Locks() ==> locallyLocked && recovery.value.pendingLock == Some(c.sequence)
      modifies this, policy, trusted
      ensures Ready() && Leads(old(Abs()), Abs()) && UnchangedFlags()
      ensures recovery.Some? && recovery.value.lease == old(recovery.value.lease) && recovery.value.applied == c.sequence
      ensures recovery.value.pendingLock == old(recovery.value.pendingLock)
      ensures recovery.value.pendingLockSession == old(recovery.value.pendingLockSession)
      ensures f == NoFault ==> snapshot == recovery
      ensures f == NoFault ==> recovery.value.pendingAck.None?
      ensures f != Refusal && (smooth ==> f == NoFault)
      ensures Calm() && (old(locallyLocked) ==> locallyLocked)
    {
      ghost var s := Abs();
      Interfere();
      ghost var t := Abs();
      OnCommandStep(CommandApplied(c));
      LeadsOn(s, t, Abs());
      t := Abs();
      f := SaveAfterTicks();
      LeadsOn(s, t, Abs());
      if f == NoFault {
        t := Abs();
        f := AckPendingCommand();
        LeadsOn(s, t, Abs());
      }
    }

    /** The effect of a command on the record: an unexpired lock command leaves the station locked, its session blocked and its
        number pending; an accepted start ends the pending lock and, unless a session is Active, the block; any other
        command leaves the pending lock alone. */
    static ghost predicate Obeyed(r: Recovery, c: Command, q: Recovery, active: bool) {
      if c.Locks() then
        q.pendingLock == Some(c.sequence) && q.pendingLockSession == Some(c.session) && q.blocked == Some(c.session)
      else if !c.expired && c.kind == SessionStarted && StartAccepted(r, c.session, c.sequence) then
        q.pendingLock.None? && q.pendingLockSession.None? && (!active ==> q.blocked.None?)
      else q.pendingLock == r.pendingLock && q.pendingLockSession == r.pendingLockSession && (!active ==> q.blocked == r.blocked)
    }

    /** The next command is obeyed, and then its number recorded. */
    method ObeyCommand(c: Command) returns (f: Fault)
      requires Ready() && recovery.Some? && recovery.value.pendingAck.None? && Next(recovery.value, c)
      modifies this, policy, trusted
      ensures Ready() && Leads(old(Abs()), Abs()) && UnchangedFlags()
      ensures recovery.Some? && recovery.value.lease == old(recovery.value.lease)
      ensures f == NoFault ==> snapshot == recovery
      ensures f == NoFault ==> recovery.value.applied == c.sequence && recovery.value.pendingAck.None?
      ensures f == NoFault ==> Obeyed(old(recovery.value), c, recovery.value, old(view.mode) == Active)
      ensures f == NoFault && c.Locks() ==> locallyLocked && view.mode != Active
      ensures f != Refusal && (smooth ==> f == NoFault)
      ensures old(locallyLocked) ==> locallyLocked
    {
      ghost var s := Abs();
      LeadsToSelf(s);
      if c.Locks() {
        var i := LockAnswers();
        var ok := LockLocally(i);
        if !ok { return PolicyFault; }
        ghost var t := Abs();
        AfterTicks(LockCommand(c));
        LeadsOn(s, t, Abs());
      } else if !c.expired && c.kind == SessionStarted && recovery.value.lease.sessionId == Some(c.session) &&
                recovery.value.lease.directive == ActiveDirective {
        AfterTicks(StartCommand(c));
      }
      ghost var u := Abs();
      f := RecordApplied(c);
      LeadsOn(s, u, Abs());
    }

    /** Ticks, then the effect of a lock or a start on the record. */
    method AfterTicks(k: CommandStep)
      requires Ready() && Enabled(Abs(), OnCommand(k)) && (k.LockCommand? || k.StartCommand?)
      modifies this, policy, trusted
      ensures Ready() && Leads(old(Abs()), Abs()) && UnchangedFlags()
      ensures recovery.Some? && recovery.value.lease == old(recovery.value.lease)
      ensures recovery.value.applied == old(recovery.value.applied)
      ensures recovery.value.pendingAck == old(recovery.value.pendingAck)
      ensures var r, q := old(recovery.value), recovery.value;
              && (k.LockCommand? ==> Obeyed(r, k.c, q, false))
              && (k.StartCommand? ==> Obeyed(r, k.c, q, old(view.mode) == Active))
      ensures old(view.mode) != Active ==> view.mode != Active
      ensures old(locallyLocked) ==> locallyLocked
    {
      ghost var s := Abs();
      Interfere();
      ghost var t := Abs();
      OnCommandStep(k);
      LeadsOn(s, t, Abs());
    }

    /** The command log has a hole before the next command fetched, or the signed lease does not cover it. */
    static ghost predicate Held(r: Recovery, fetched: seq<Command>) {
      && (exists c :: c in fetched && r.applied < c.sequence)
      && ((forall c :: c in fetched ==> c.sequence != r.applied + 1) || r.lease.cursor <= r.applied)
    }

    /** All of what the server returned is applied; or the station is locked, waiting, and the log really has a hole or runs ahead
        of the lease. */
    ghost predicate Reconciled(fetched: seq<Command>) reads this {
      && recovery.Some? && recovery.value.pendingAck.None?
      && (!commandGap ==> forall c :: c in fetched ==> c.sequence <= recovery.value.applied)
      && (commandGap ==> locallyLocked && Held(recovery.value, fetched))
    }

    /** ReconcileCommands, whatever the order and the duplicates in what the server returns. */
    method ReconcileCommands(fetched: seq<Command>) returns (f: Fault)
      requires Ready() && recovery.Some?
      modifies this, policy, trusted
      ensures Ready() && Leads(old(Abs()), Abs())
      ensures recovery.Some? && recovery.value.lease == old(recovery.value.lease) && admitted == old(admitted)
      ensures old(locallyLocked) ==> locallyLocked
      ensures f == NoFault ==> Reconciled(fetched)
      ensures f != Refusal && (smooth ==> f == NoFault)
    {
      ghost var s := Abs();
      SetCommandGap(false);
      ghost var t := Abs();
      f := AckPendingCommand();
      LeadsOn(s, t, Abs());
      if f != NoFault { return; }
      var delivered := Succeeds();
      if !delivered {
        f := AnyNetworkFault();
        return;
      }
      t := Abs();
      SortedIsInOrder(fetched);
      f := ApplyInOrder(StableSort.Sorted(BySequence(), fetched), fetched);
      LeadsOn(s, t, Abs());
    }

    /** The loop of ReconcileCommands. */
    method ApplyInOrder(commands: seq<Command>, ghost fetched: seq<Command>) returns (f: Fault)
      requires Ready() && recovery.Some? && recovery.value.pendingAck.None? && !commandGap
      requires InOrder(commands, fetched)
      modifies this, policy, trusted
      ensures Ready() && Leads(old(Abs()), Abs())
      ensures recovery.Some? && recovery.value.lease == old(recovery.value.lease) && admitted == old(admitted)
      ensures old(locallyLocked) ==> locallyLocked
      ensures f == NoFault ==> Reconciled(fetched)
      ensures f != Refusal && (smooth ==> f == NoFault)
    {
      ghost var s := Abs();
      LeadsToSelf(s);
      for i := 0 to |commands|
        invariant Ready() && Leads(s, Abs()) && recovery.Some? && recovery.value.lease == old(recovery.value.lease)
        invariant recovery.value.pendingAck.None? && !commandGap && admitted == old(admitted)
        invariant old(locallyLocked) ==> locallyLocked
        invariant forall j :: 0 <= j < i ==> commands[j].sequence <= recovery.value.applied
      {
        ghost var t := Abs();
        var stop;
        f, stop := Consider(commands[i]);
        LeadsOn(s, t, Abs());
        if f != NoFault { return; }
        if stop {
          assert commands[i] in fetched;
          return;
        }
      }
      return NoFault;
    }

    /** One command: skipped as a duplicate, obeyed, or the reason to stop and wait. */
    method Consider(c: Command) returns (f: Fault, stop: bool)
      requires Ready() && recovery.Some? && recovery.value.pendingAck.None? && !commandGap
      modifies this, policy, trusted
      ensures Ready() && Leads(old(Abs()), Abs())
      ensures recovery.Some? && recovery.value.lease == old(recovery.value.lease) && admitted == old(admitted)
      ensures old(locallyLocked) ==> locallyLocked
      ensures f == NoFault ==> recovery.value.pendingAck.None? && old(recovery.value.applied) <= recovery.value.applied
      ensures f == NoFault && !stop ==> !commandGap && c.sequence <= recovery.value.applied
      ensures f == NoFault && stop ==>
                && commandGap && locallyLocked && recovery.value.applied == old(recovery.value.applied) < c.sequence
                && (recovery.value.applied + 1 < c.sequence || recovery.value.lease.cursor < c.sequence)
      ensures f != Refusal && (smooth ==> f == NoFault)
    {
      ghost var s := Abs();
      LeadsToSelf(s);
      ReachableLog(s);
      stop := false;
      var decision := Decide(recovery.value.applied, c.sequence);
      if decision == Duplicate { return NoFault, false; }
      var foreign: bool := *;
      var valid := Succeeds();
      if decision == Apply && !valid { return if foreign then CryptoFault else DataFault, false; }
      if decision == Gap || recovery.value.lease.cursor < c.sequence {
        stop := true;
        f := Wait();
      } else {
        f := ObeyCommand(c);
      }
    }

    /** The gap flag is set and the station locked. */
    method Wait() returns (f: Fault)
      requires Ready() && recovery.Some?
      modifies this, policy, trusted
      ensures Ready() && Leads(old(Abs()), Abs()) && SameWork(old(recovery), recovery)
      ensures commandGap && admitted == old(admitted) && recovery.value.pendingAck == old(recovery.value.pendingAck)
      ensures f == NoFault ==> locallyLocked
      ensures f != Refusal && (smooth ==> f == NoFault)
      ensures old(locallyLocked) ==> locallyLocked
    {
      ghost var s := Abs();
      SetCommandGap(true);
      ghost var t := Abs();
      var i := LockAnswers();
      var ok := LockLocally(i);
      LeadsOn(s, t, Abs());
      f := if ok then NoFault else PolicyFault;
    }

    /** No lock acknowledgement is owed, or a reason forbids it for now. */
    static ghost predicate NothingOwed(s: Station) {
      s.desk.recovery.Some? ==>
        var r := s.desk.recovery.value;
        r.pendingLock.None? || r.pendingLockSession.None? || s.desk.maintenance || !s.desk.enforcer.verified || !r.locallyLocked
    }

    /** The server has received a lock acknowledgement for the session under that number. */
    static ghost predicate Heard(server: Server, sequence: int, session: Id) {
      exists i :: 0 <= i < |server.lockAcks| && server.lockAcks[i].sequence == sequence && server.lockAcks[i].session == session
    }

    /** On the way from one state to the other nothing was owed at some point. */
    static ghost predicate SettledBetween(s: Station, t: Station) {
      exists c :: Leads(s, c) && NothingOwed(c) && Leads(c, t)
    }

    static lemma SettledOn(s: Station, t: Station, u: Station, v: Station)
      requires (s == t || Leads(s, t)) && SettledBetween(t, u) && (u == v || Leads(u, v))
      ensures SettledBetween(s, v)
    {
      var c :| Leads(t, c) && NothingOwed(c) && Leads(c, u);
      if s != t { LeadsOn(s, t, c); }
      if u != v { LeadsOn(c, u, v); }
      assert Leads(s, c) && NothingOwed(c) && Leads(c, v);
    }

    /** AckPendingLock: the check, the message and the end of the obligation are separate steps. */
    method AckPendingLock() returns (f: Fault)
      requires Ready() && recovery.Some?
      modifies this, policy, trusted
      ensures old(locallyLocked) ==> locallyLocked
      ensures Ready() && Leads(old(Abs()), Abs())
      ensures recovery.Some? && recovery.value.lease == old(recovery.value.lease) && commandGap == old(commandGap)
      ensures recovery.value.pendingAck == old(recovery.value.pendingAck) && recovery.value.applied == old(recovery.value.applied)
      ensures old(Standing(TheDesk())) ==> Standing(TheDesk())
      ensures f == NoFault ==> NothingOwed(Abs())
      ensures OtherSessionActive(old(recovery.value)) ==> server == old(server)
      ensures f != Refusal && (smooth ==> f == NoFault)
    {
      ghost var s := Abs();
      Interfere();
      ghost var t := Abs();
      if Standing(s.desk) { QuietStands(s.desk, t.desk); }
      var r := recovery.value;
      if maintenance || !policy.verified || r.pendingLock.None? || r.pendingLockSession.None? || !r.locallyLocked {
        return NoFault;
      }
      f := ConfirmLock();
      LeadsOn(s, t, Abs());
    }

    /** The lock is to be acknowledged: dropped for another session's ACTIVE lease, or sent. */
    method ConfirmLock() returns (f: Fault)
      requires Ready() && recovery.Some? && recovery.value.pendingLock.Some? && recovery.value.pendingLockSession.Some?
      requires !maintenance && policy.verified && recovery.value.locallyLocked
      modifies this, policy, trusted
      ensures old(locallyLocked) ==> locallyLocked
      ensures Ready() && Leads(old(Abs()), Abs())
      ensures recovery.Some? && recovery.value.lease == old(recovery.value.lease) && commandGap == old(commandGap)
      ensures recovery.value.pendingAck == old(recovery.value.pendingAck) && recovery.value.applied == old(recovery.value.applied)
      ensures old(Standing(TheDesk())) ==> Standing(TheDesk())
      ensures f == NoFault ==> recovery.value.pendingLock.None?
      ensures OtherSessionActive(old(recovery.value)) ==> server == old(server)
      ensures f == NoFault && !OtherSessionActive(old(recovery.value)) ==>
                Heard(server, old(recovery.value.pendingLock.value), old(recovery.value.pendingLockSession.value))
      ensures f != Refusal && (smooth ==> f == NoFault)
    {
      ghost var s := Abs();
      if OtherSessionActive(recovery.value) {
        ClearPendingLock(DropLock);
        return NoFault;
      }
      OnLockAckMessage(CheckLockAck);
      ghost var t := Abs();
      f := ExchangeLockAck();
      LeadsOn(s, t, Abs());
    }

    method ExchangeLockAck() returns (f: Fault)
      requires Valid() && saveStatus != NotTried && recovery.Some? && intent.Checked?
      requires recovery.value.pendingLock == Some(intent.sequence)
      modifies this, policy, trusted
      ensures old(locallyLocked) ==> locallyLocked
      ensures Ready() && Leads(old(Abs()), Abs())
      ensures recovery.Some? && recovery.value.lease == old(recovery.value.lease) && commandGap == old(commandGap)
      ensures recovery.value.pendingAck == old(recovery.value.pendingAck) && recovery.value.applied == old(recovery.value.applied)
      ensures old(Standing(TheDesk())) ==> Standing(TheDesk())
      ensures f == NoFault ==> recovery.value.pendingLock.None?
      ensures f == NoFault ==> Heard(server, old(intent.sequence), old(intent.session))
      ensures f != Refusal && (smooth ==> f == NoFault)
    {
      ghost var s := Abs();
      var received := Succeeds();
      var answered := Succeeds();
      DeliverLockAck(received);
      ghost var t := Abs();
      f := FinishLockAck(received && answered);
      LeadsOn(s, t, Abs());
    }

    /** The answer is in, or nothing came back. */
    method FinishLockAck(answered: bool) returns (f: Fault)
      requires Valid() && saveStatus != NotTried && recovery.Some?
      requires answered ==> intent.Sent? && recovery.value.pendingLock == Some(intent.sequence)
      modifies `recovery, `intent, `journal, `server
      ensures Ready() && Leads(old(Abs()), Abs())
      ensures recovery.Some? && recovery.value.lease == old(recovery.value.lease)
      ensures recovery.value.pendingAck == old(recovery.value.pendingAck) && recovery.value.applied == old(recovery.value.applied)
      ensures (f == NoFault <==> answered) && server == old(server)
      ensures f == NoFault ==> recovery.value.pendingLock.None?
      ensures f != Refusal
    {
      if answered {
        ClearPendingLock(ClearLock);
        f := NoFault;
      } else {
        OnLockAckMessage(AbandonAck);
        f := AnyNetworkFault();
      }
    }

    /** The message is under way, and reaches the server or not. */
    method DeliverLockAck(received: bool)
      requires Valid() && saveStatus != NotTried && recovery.Some? && intent.Checked?
      modifies this, policy, trusted
      ensures Valid() && Leads(old(Abs()), Abs()) && SameRecord(old(recovery), recovery)
      ensures saveStatus == old(saveStatus) && commandGap == old(commandGap) && (old(locallyLocked) ==> locallyLocked)
      ensures old(Standing(TheDesk())) ==> Standing(TheDesk())
      ensures received ==> intent.Sent? && intent.sequence == old(intent.sequence)
      ensures received ==> Heard(server, old(intent.sequence), old(intent.session))
    {
      ghost var s := Abs();
      Interfere();
      if received {
        ghost var t := Abs();
        OnLockAckMessage(SendLockAck);
        assert server.lockAcks[|t.server.lockAcks|].sequence == t.intent.sequence;
        LeadsOn(s, t, Abs());
        t := Abs();
        Interfere();
        LeadsOn(s, t, Abs());
      }
    }

    /** Verify, Validate and the clock: the lease is fit to be installed. */
    predicate Fit(l: Lease) reads this { FieldsAccepted(l, id) && FollowsHistory(recovery, l) }

    /** The tail that Refresh, login and logout share: install, reconcile, apply. */
    method Adopt(lease: Lease, origin: Origin, fetched: seq<Command>) returns (f: Fault)
      requires Ready() && Fit(lease) && 0 <= lease.cursor
      requires origin == FromLogin ==> recovery.Some? && admitted
      requires origin == FromLogout ==> locallyLocked
      modifies this, policy, trusted
      ensures old(locallyLocked) ==> locallyLocked
      ensures Ready() && Leads(old(Abs()), Abs()) && admitted == old(admitted)
      ensures recovery.Some? && recovery.value.lease == lease
      ensures f == NoFault ==> Reconciled(fetched) && Standing(TheDesk())
      ensures f != Refusal && (smooth ==> f == NoFault)
    {
      ghost var s := Abs();
      InstallAfterTicks(lease, origin);
      ghost var t := Abs();
      f := ReconcileCommands(fetched);
      LeadsOn(s, t, Abs());
      if f == NoFault {
        t := Abs();
        f := UseInstalledLease();
        LeadsOn(s, t, Abs());
      }
    }

    method InstallAfterTicks(lease: Lease, origin: Origin)
      requires Ready() && Fit(lease) && 0 <= lease.cursor
      requires origin == FromLogin ==> recovery.Some? && admitted
      requires origin == FromLogout ==> locallyLocked
      modifies `view, `recovery, `locallyLocked, `maintenance, policy, trusted
      ensures Ready() && Leads(old(Abs()), Abs()) && (old(locallyLocked) ==> locallyLocked)
      ensures recovery.Some? && recovery.value.lease == lease
    {
      ghost var s := Abs();
      Interfere();
      ghost var t := Abs();
      Install(lease, origin);
      LeadsOn(s, t, Abs());
    }

    method UseInstalledLease() returns (f: Fault)
      requires Ready() && recovery.Some?
      modifies this, policy, trusted
      ensures old(locallyLocked) ==> locallyLocked
      ensures Ready() && Leads(old(Abs()), Abs()) && SameRecord(old(recovery), recovery) && UnchangedFlags()
      ensures f == NoFault ==> Standing(TheDesk())
      ensures f != Refusal && (smooth ==> f == NoFault)
    {
      ghost var s := Abs();
      Interfere();
      ghost var t := Abs();
      f := UseNow();
      LeadsOn(s, t, Abs());
    }

    method UseNow() returns (f: Fault)
      requires Ready() && recovery.Some?
      modifies `view, `recovery, `locallyLocked, policy, trusted
      ensures Ready() && Leads(old(Abs()), Abs()) && SameRecord(old(recovery), recovery) && (old(locallyLocked) ==> locallyLocked)
      ensures f == NoFault ==> Standing(TheDesk())
      ensures f != Refusal && (smooth ==> f == NoFault)
    {
      ghost var s := Abs();
      var now := trusted.Now();
      var i := UseAnswers(now);
      var ok := ApplyInstalledLease(i);
      if ok { ApplyStands(s, i); }
      if smooth { SmoothApply(s.desk, i); }
      f := if ok then NoFault else PolicyFault;
    }

    /** The version is not behind, and a newer policy names no application twice. */
    static predicate Acceptable(p: Policy, version: int) { p.version == version || (version < p.version && DistinctCodes(p.apps)) }

    /** The configuration is fetched, checked and applied. */
    method UpdateConfiguration(p: Policy) returns (f: Fault)
      requires Ready()
      modifies this, policy, trusted
      ensures Ready() && Leads(old(Abs()), Abs()) && admitted == old(admitted) && SameRecord(old(recovery), recovery)
      ensures f == NoFault ==> policy.version == p.version && (old(policy.version) < p.version ==> policy.allowed == Table(p.apps))
      ensures f != Refusal && (smooth && Acceptable(p, old(policy.version)) ==> f == NoFault)
    {
      ghost var s := Abs();
      Interfere();
      ghost var t := Abs();
      f := ApplyConfiguration(p);
      LeadsOn(s, t, Abs());
    }

    method ApplyConfiguration(p: Policy) returns (f: Fault)
      requires Ready()
      modifies policy
      ensures Ready() && Leads(old(Abs()), Abs())
      ensures f == NoFault ==> policy.version == p.version && (old(policy.version) < p.version ==> policy.allowed == Table(p.apps))
      ensures f != Refusal && (smooth && Acceptable(p, old(policy.version)) ==> f == NoFault)
    {
      LeadsToSelf(Abs());
      var delivered := Succeeds();
      var genuine := Succeeds();
      var valid := Succeeds();
      var r := ScriptAnswer();
      var saved := Succeeds();
      if !delivered { f := AnyNetworkFault(); return; }
      if !genuine { return CryptoFault; }
      var ok := UpdatePolicy(p, valid, r, saved);
      f := if ok then NoFault else PolicyFault;
    }

    /** A lease arrives and passes Verify. */
    method ReceiveLease(lease: Lease) returns (f: Fault)
      requires Ready()
      modifies this, policy, trusted
      ensures Ready() && Leads(old(Abs()), Abs()) && UnchangedFlags()
      ensures f == NoFault ==> FieldsAccepted(lease, id)
      ensures smooth && FieldsAccepted(lease, id) ==> f == NoFault
      ensures SameRecord(old(recovery), recovery) && (old(locallyLocked) ==> locallyLocked) && policy.version == old(policy.version)
      ensures f != Refusal
    {
      Interfere();
      var delivered := Succeeds();
      if !delivered { f := AnyNetworkFault(); return; }
      f := if FieldsAccepted(lease, id) then NoFault else CryptoFault;
    }

    /** What AcceptLease asks of a lease. */
    ghost predicate Acceptance(lease: Lease, origin: Origin) reads this, policy {
      && FollowsHistory(recovery, lease)
      && (origin != FromLogout ==> lease.configurationVersion == policy.version)
      && (origin == FromLogout ==> lease.directive == LockDirective && lease.sessionId.None?)
    }

    /** The lease is checked against the local history, the configuration version and, for a logout, the server's
        confirmation that play has ended; the clock takes its issue time. */
    method AcceptLease(lease: Lease, origin: Origin) returns (f: Fault)
      requires Ready() && FieldsAccepted(lease, id)
      modifies trusted
      ensures Ready() && Leads(old(Abs()), Abs())
      ensures f == NoFault <==> Acceptance(lease, origin)
      ensures f == NoFault ==> Fit(lease) && lease.issuedAt <= trusted.Value()
      ensures f == Refusal ==> origin == FromLogout && !(lease.directive == LockDirective && lease.sessionId.None?)
    {
      LeadsToSelf(Abs());
      if !FollowsHistory(recovery, lease) { return CryptoFault; }
      if origin == FromLogin && lease.configurationVersion != policy.version { return CryptoFault; }
      if origin == FromLogout && (lease.directive != LockDirective || lease.sessionId.Some?) { return Refusal; }
      Observe(lease.issuedAt);
      if origin == FromRefresh && lease.configurationVersion != policy.version { return CryptoFault; }
      return NoFault;
    }

    /** In Refresh a station that is not Active never adopts an ACTIVE lease: the server must first confirm the end of the
        interrupted session with a LOCK lease, fetched a second time. */
    method ReceiveForRefresh(first: Lease, second: Lease) returns (f: Fault, lease: Lease)
      requires Ready()
      modifies this, policy, trusted
      ensures Ready() && Leads(old(Abs()), Abs()) && SameRecord(old(recovery), recovery) && policy.version == old(policy.version)
      ensures f != Refusal && (lease == first || lease == second)
      ensures f == NoFault ==> FieldsAccepted(lease, id) && (lease != first ==> lease.directive == LockDirective)
      ensures f == NoFault && lease.directive == ActiveDirective ==> view.mode == Active
      ensures smooth && FieldsAccepted(first, id) && FieldsAccepted(second, id) && second.directive == LockDirective ==> f == NoFault
    {
      ghost var s := Abs();
      lease := first;
      f := ReceiveLease(first);
      if f == NoFault && view.mode != Active && lease.timeBalance && lease.directive == ActiveDirective && lease.sessionId.Some? {
        ghost var t := Abs();
        lease := second;
        f := ReceiveLease(second);
        LeadsOn(s, t, Abs());
        if f == NoFault && lease.directive != LockDirective { f := PolicyFault; }
      }
    }

    /** Answers that fit the station: leases that pass the checks, follow the history and match the configuration. */
    static ghost predicate Fitting(s: Station, version: int, first: Lease, second: Lease) {
      && FieldsAccepted(first, s.id) && FieldsAccepted(second, s.id) && second.directive == LockDirective
      && FollowsHistory(s.desk.recovery, first) && FollowsHistory(s.desk.recovery, second)
      && first.configurationVersion == version && second.configurationVersion == version
    }

    /** What a Refresh that ends normally outside maintenance has achieved: one of the leases, matching the configuration, is
        installed, its time observed, the commands are reconciled, and Active means Active under that lease. */
    ghost predicate Renewed(version: int, first: Lease, second: Lease, fetched: seq<Command>) reads this, policy, trusted {
      && Reconciled(fetched) && Standing(TheDesk())
      && (recovery.value.lease == first || (recovery.value.lease == second && second.directive == LockDirective))
      && recovery.value.lease.configurationVersion == version
      && recovery.value.lease.issuedAt <= trusted.Value()
    }

    /** The try block of Refresh; `renewed` says that the station was not in maintenance. */
    method RefreshBody(p: Policy, first: Lease, second: Lease, fetched: seq<Command>) returns (f: Fault, renewed: bool)
      requires Ready() && 0 <= first.cursor && 0 <= second.cursor
      modifies this, policy, trusted
      ensures Ready() && Leads(old(Abs()), Abs()) && f != Refusal
      ensures f == NoFault && renewed ==>
                Renewed(p.version, first, second, fetched) && snapshot == recovery && SettledBetween(old(Abs()), Abs())
      ensures f == NoFault && !renewed ==> maintenance
      ensures smooth && Acceptable(p, old(policy.version)) && Fitting(old(Abs()), p.version, first, second) ==> f == NoFault
    {
      ghost var s := Abs();
      renewed := false;
      Interfere();
      ghost var t := Abs();
      var authenticated := Succeeds();
      if !authenticated { f := AnyNetworkFault(); return; }
      if maintenance { return NoFault, false; }
      renewed := true;
      f := RenewAll(p, first, second, fetched);
      LeadsOn(s, t, Abs());
      if f == NoFault { SettledOn(s, t, Abs(), Abs()); }
    }

    /** Configuration first, then the lease that must match it. */
    method RenewAll(p: Policy, first: Lease, second: Lease, fetched: seq<Command>) returns (f: Fault)
      requires Ready() && 0 <= first.cursor && 0 <= second.cursor
      modifies this, policy, trusted
      ensures Ready() && Leads(old(Abs()), Abs()) && f != Refusal
      ensures f == NoFault ==>
                Renewed(p.version, first, second, fetched) && snapshot == recovery && SettledBetween(old(Abs()), Abs())
      ensures smooth && Acceptable(p, old(policy.version)) && Fitting(old(Abs()), p.version, first, second) ==> f == NoFault
    {
      ghost var s := Abs();
      f := UpdateConfiguration(p);
      if f != NoFault { return; }
      ghost var t := Abs();
      f := Renew(first, second, fetched);
      LeadsOn(s, t, Abs());
      if f == NoFault { SettledOn(s, t, Abs(), Abs()); }
    }

    method Renew(first: Lease, second: Lease, fetched: seq<Command>) returns (f: Fault)
      requires Ready() && 0 <= first.cursor && 0 <= second.cursor
      modifies this, policy, trusted
      ensures Ready() && Leads(old(Abs()), Abs()) && f != Refusal
      ensures f == NoFault ==>
                Renewed(old(policy.version), first, second, fetched) && snapshot == recovery && SettledBetween(old(Abs()), Abs())
      ensures smooth && Fitting(old(Abs()), old(policy.version), first, second) ==> f == NoFault
    {
      ghost var s := Abs();
      var lease;
      f, lease := ReceiveForRefresh(first, second);
      if f != NoFault { return; }
      ghost var t := Abs();
      f := AcceptLease(lease, FromRefresh);
      LeadsOn(s, t, Abs());
      if f != NoFault { return; }
      t := Abs();
      f := AdoptAndConclude(lease, FromRefresh, fetched);
      LeadsOn(s, t, Abs());
      LeadsForward(t, Abs());
      if f == NoFault { SettledOn(s, t, Abs(), Abs()); }
    }

    /** Install, reconcile, apply, confirm and save: what Refresh and logout do with an accepted lease. */
    method AdoptAndConclude(lease: Lease, origin: Origin, fetched: seq<Command>) returns (f: Fault)
      requires Ready() && Fit(lease) && 0 <= lease.cursor && origin != FromLogin
      requires origin == FromLogout ==> locallyLocked
      modifies this, policy, trusted
      ensures old(locallyLocked) ==> locallyLocked
      ensures Ready() && Leads(old(Abs()), Abs()) && f != Refusal
      ensures f == NoFault ==> Reconciled(fetched) && Standing(TheDesk()) && recovery.value.lease == lease
      ensures f == NoFault ==> snapshot == recovery && SettledBetween(old(Abs()), Abs())
      ensures f != Refusal && (smooth ==> f == NoFault)
    {
      ghost var s := Abs();
      f := Adopt(lease, origin, fetched);
      if f != NoFault { return; }
      ghost var t := Abs();
      f := Conclude(fetched);
      LeadsOn(s, t, Abs());
      if f == NoFault { SettledOn(s, t, Abs(), Abs()); }
    }

    /** AckPendingLock and the final SaveRecovery. */
    method Conclude(fetched: seq<Command>) returns (f: Fault)
      requires Ready() && Reconciled(fetched) && Standing(TheDesk())
      modifies this, policy, trusted
      ensures old(locallyLocked) ==> locallyLocked
      ensures Ready() && Leads(old(Abs()), Abs()) && f != Refusal
      ensures f == NoFault ==> Reconciled(fetched) && Standing(TheDesk()) && recovery.value.lease == old(recovery.value.lease)
      ensures f == NoFault ==> snapshot == recovery && SettledBetween(old(Abs()), Abs())
      ensures f != Refusal && (smooth ==> f == NoFault)
    {
      ghost var s := Abs();
      f := AckPendingLock();
      if f != NoFault { return; }
      ghost var t := Abs();
      f := SaveAfterTicks();
      LeadsOn(s, t, Abs());
      assert NothingOwed(t);
    }

    /** The faults after which Refresh locks the station. */
    static predicate Locking(f: Fault) { f != NoFault && f != TimeoutFault && f != HttpFault(false) }

    /** Refresh: a run of the machine however it goes. When it ends normally outside maintenance the lease is adopted, memory and
        snapshot agree and nothing is owed; with fitting answers and no failure it does end normally; a rejection locks. */
    method Refresh(p: Policy, first: Lease, second: Lease, fetched: seq<Command>) returns (f: Fault, renewed: bool)
      requires Ready() && 0 <= first.cursor && 0 <= second.cursor
      modifies this, policy, trusted
      ensures Ready() && Leads(old(Abs()), Abs())
      ensures f == NoFault && renewed ==>
                && Renewed(p.version, first, second, fetched) && SettledBetween(old(Abs()), Abs()) && snapshot.Some?
                && snapshot.value.applied == recovery.value.applied && snapshot.value.lease == recovery.value.lease
      ensures smooth && Acceptable(p, old(policy.version)) && Fitting(old(Abs()), p.version, first, second) ==> f == NoFault
      ensures smooth && Locking(f) ==> locallyLocked
    {
      ghost var s := Abs();
      f, renewed := RefreshBody(p, first, second, fetched);
      ghost var t := Abs();
      if f != NoFault {
        Catch(Locking(f), true);
        LeadsOn(s, t, Abs());
      }
      ghost var u := Abs();
      Interfere();
      LeadsOn(s, u, Abs());
      if f == NoFault && renewed { SettledOn(s, s, u, Abs()); }
    }

    /** A catch clause: it locks if it is one of those that do, and then saves if it is one of Refresh's. */
    method Catch(locks: bool, saves: bool)
      requires Ready()
      modifies this, policy, trusted
      ensures old(locallyLocked) ==> locallyLocked
      ensures Ready() && Leads(old(Abs()), Abs())
      ensures smooth && locks ==> locallyLocked
      ensures smooth && saves && recovery.Some? ==> snapshot == recovery
    {
      ghost var s := Abs();
      Interfere();
      ghost var t := Abs();
      if locks {
        var i := LockAnswers();
        var ok := LockLocally(i);
        LeadsOn(s, t, Abs());
        t := Abs();
        if !ok { return; }
      }
      if saves && recovery.Some? {
        var f := SaveAfterTicks();
        LeadsOn(s, t, Abs());
      }
    }

    predicate Admissible(a: Time, b: Time, t: Time)
      requires recovery.Some?
      reads this, policy
      ensures Admissible(a, b, t) == LoginAdmitted(TheDesk(), a, b, t)
    {
      var r := recovery.value;
      && !maintenance && !commandGap && r.lease.cursor <= r.applied
      && (Assignable(r.lease, a, b) ||
          (r.lease.directive == ActiveDirective && r.blocked != r.lease.sessionId && !MustLock(r.lease, t)))
    }

    /** The entry check of a login, whose clock reads lie within `span` of its beginning. */
    method Admit(span: nat) returns (f: Fault)
      requires Ready()
      modifies `admitted, trusted
      ensures Ready() && Leads(old(Abs()), Abs()) && (f == NoFault || f == Refusal)
      ensures f == NoFault ==> admitted && Entrance(TheDesk(), old(trusted.Value()))
      ensures Entrance(TheDesk(), old(trusted.Value()) + span) ==> f == NoFault
    {
      ghost var s := Abs();
      LeadsToSelf(s);
      ReachableLock(s);
      var a: nat, b: nat := *, *;
      var now := trusted.Now();
      var t0, t1, t2 := now + Least(a, span), now + Least(a + b, span), now + span;
      if recovery.Some? { AdmittedAtEntrance(s.desk, id, now, t0, t1, t2); }
      if recovery.None? || !Admissible(t0, t1, t2) { return Refusal; }
      LetIn(t0, t1, t2);
      return NoFault;
    }

    method LetIn(a: Time, b: Time, t: Time)
      requires Ready() && Enabled(Abs(), AdmitLogin(a, b, t))
      modifies `admitted, trusted
      ensures Ready() && Leads(old(Abs()), Abs()) && admitted && trusted.Value() == t
    {
      ghost var s := Abs();
      PassTo(t);
      admitted := true;
      Taken(s, AdmitLogin(a, b, t));
    }

    static function Least(a: nat, b: nat): nat { if a < b then a else b }

    /** A lease that a login accepts. */
    static ghost predicate LoginLease(s: Station, lease: Lease) {
      FieldsAccepted(lease, s.id) && FollowsHistory(s.desk.recovery, lease) && lease.configurationVersion == s.desk.enforcer.version
    }

    /** A lease that confirms a logout. */
    static ghost predicate LogoutLease(s: Station, lease: Lease) {
      && FieldsAccepted(lease, s.id) && FollowsHistory(s.desk.recovery, lease)
      && lease.directive == LockDirective && lease.sessionId.None?
    }

    /** The state is what the last section of a login, for a station under this lease, leaves. */
    ghost predicate EndsLogin(lease: Lease) reads this, policy, trusted {
      exists t: Station, i: LoginInput :: LoginEnd(t, i, lease, smooth) && Abs() == Do(t, Action.EndLogin(i))
    }

    static ghost predicate LoginEnd(t: Station, i: LoginInput, lease: Lease, smooth: bool) {
      Reachable(t) && Enabled(t, Action.EndLogin(i)) && t.desk.recovery.value.lease == lease && (smooth ==> SmoothLogin(i))
    }

    /** The login request of Handle: credentials alone never unlock; the new signed lease and its commands come first, and then
        the last section runs. `entry` is the station at the entry check. */
    method LoginRequest(span: nat, serverTime: Time, lease: Lease, fetched: seq<Command>)
      returns (f: Fault, ghost entry: Station)
      requires Ready() && 0 <= lease.cursor
      modifies this, policy, trusted
      ensures Ready() && Leads(old(Abs()), Abs()) && TicksOnly(old(Abs()), entry)
      ensures f == Refusal ==> !Entrance(entry.desk, entry.clock + span)
      ensures f == NoFault ==> EndsLogin(lease) && serverTime <= trusted.Value() && lease.issuedAt <= trusted.Value()
      ensures f != Refusal ==> Entrance(entry.desk, entry.clock)
      ensures smooth && f != Refusal && LoginLease(old(Abs()), lease) ==> f == NoFault
      ensures smooth && (f == CryptoFault || f == PolicyFault) ==> locallyLocked
    {
      ghost var s := Abs();
      Interfere();
      entry := Abs();
      f := Admit(span);
      LeadsOn(s, entry, Abs());
      if f != NoFault { return; }
      ghost var t := Abs();
      f := LoginOrCatch(serverTime, lease, fetched);
      LeadsOn(s, t, Abs());
    }

    method LoginOrCatch(serverTime: Time, lease: Lease, fetched: seq<Command>) returns (f: Fault)
      requires Ready() && recovery.Some? && admitted && 0 <= lease.cursor
      modifies this, policy, trusted
      ensures Ready() && Leads(old(Abs()), Abs()) && f != Refusal
      ensures f == NoFault ==> EndsLogin(lease) && serverTime <= trusted.Value() && lease.issuedAt <= trusted.Value()
      ensures smooth && LoginLease(old(Abs()), lease) ==> f == NoFault
      ensures smooth && (f == CryptoFault || f == PolicyFault) ==> locallyLocked
    {
      ghost var s := Abs();
      f := LoginBodyFlow(serverTime, lease, fetched);
      if f != NoFault && f != DataFault {
        ghost var t := Abs();
        Catch(f == CryptoFault || f == PolicyFault, false);
        LeadsOn(s, t, Abs());
      }
    }

    method LoginBodyFlow(serverTime: Time, lease: Lease, fetched: seq<Command>) returns (f: Fault)
      requires Ready() && recovery.Some? && admitted && 0 <= lease.cursor
      modifies this, policy, trusted
      ensures Ready() && Leads(old(Abs()), Abs()) && f != Refusal
      ensures f == NoFault ==> EndsLogin(lease) && serverTime <= trusted.Value() && lease.issuedAt <= trusted.Value()
      ensures smooth && LoginLease(old(Abs()), lease) ==> f == NoFault
    {
      ghost var s := Abs();
      f := LogIn(serverTime, lease);
      if f != NoFault { return; }
      ghost var t := Abs();
      f := AdoptAndUnlock(lease, fetched);
      LeadsOn(s, t, Abs());
      LeadsForward(t, Abs());
    }

    /** The server accepts the credentials, and its new lease is accepted. */
    method LogIn(serverTime: Time, lease: Lease) returns (f: Fault)
      requires Ready() && recovery.Some? && admitted && 0 <= lease.cursor
      modifies this, policy, trusted
      ensures Ready() && Leads(old(Abs()), Abs()) && admitted && recovery.Some? && f != Refusal
      ensures f == NoFault ==> Fit(lease) && serverTime <= trusted.Value() && lease.issuedAt <= trusted.Value()
      ensures smooth && LoginLease(old(Abs()), lease) ==> f == NoFault
    {
      ghost var s := Abs();
      LeadsToSelf(s);
      var accepted := Succeeds();
      if !accepted { f := AnyNetworkFault(); return; }
      Observe(serverTime);
      ghost var t := Abs();
      f := ReceiveAndAccept(lease, FromLogin);
      LeadsOn(s, t, Abs());
      LeadsForward(t, Abs());
    }

    method ReceiveAndAccept(lease: Lease, origin: Origin) returns (f: Fault)
      requires Ready()
      modifies this, policy, trusted
      ensures Ready() && Leads(old(Abs()), Abs()) && UnchangedFlags()
      ensures SameRecord(old(recovery), recovery) && (old(locallyLocked) ==> locallyLocked)
      ensures f == NoFault ==> Fit(lease) && Acceptance(lease, origin) && lease.issuedAt <= trusted.Value()
      ensures f == Refusal ==> origin == FromLogout && !(lease.directive == LockDirective && lease.sessionId.None?)
      ensures smooth && FieldsAccepted(lease, id) && old(Acceptance(lease, origin)) ==> f == NoFault
    {
      ghost var s := Abs();
      f := ReceiveLease(lease);
      if f != NoFault { return; }
      ghost var t := Abs();
      f := AcceptLease(lease, origin);
      LeadsOn(s, t, Abs());
    }

    method AdoptAndUnlock(lease: Lease, fetched: seq<Command>) returns (f: Fault)
      requires Ready() && Fit(lease) && 0 <= lease.cursor && recovery.Some? && admitted
      modifies this, policy, trusted
      ensures Ready() && Leads(old(Abs()), Abs()) && f != Refusal
      ensures f == NoFault ==> EndsLogin(lease)
      ensures f != Refusal && (smooth ==> f == NoFault)
    {
      ghost var s := Abs();
      f := Adopt(lease, FromLogin, fetched);
      if f != NoFault { return; }
      ghost var t := Abs();
      f := Unlock();
      LeadsOn(s, t, Abs());
    }

    /** The last section of a login. */
    method Unlock() returns (f: Fault)
      requires Ready() && recovery.Some? && admitted
      modifies this, policy, trusted
      ensures Ready() && Leads(old(Abs()), Abs()) && f != Refusal
      ensures f == NoFault ==> EndsLogin(old(recovery.value.lease))
      ensures f != Refusal && (smooth ==> f == NoFault)
    {
      ghost var s := Abs();
      Interfere();
      ghost var t := Abs();
      var now := trusted.Now();
      var i := LoginAnswers(now);
      var ok := EndLogin(i);
      LeadsOn(s, t, Abs());
      assert LoginEnd(t, i, old(recovery.value.lease), smooth);
      f := if ok then NoFault else PolicyFault;
    }

    /** The station is locally locked, and its snapshot holds the record, marked so. */
    static ghost predicate LockedAndSaved(s: Station) {
      s.desk.locallyLocked &&
      (s.desk.recovery.Some? ==> s.disk.Some? && s.disk.value.locallyLocked && SameRecord(s.desk.recovery, s.disk))
    }

    /** The logout request of Handle. `told` is the station at the moment the server is told, if it comes to that: by then it
        is locked and saved, and it stays locked however the rest goes. A normal end means that the server has confirmed,
        with a LOCK lease without a session, and that this lease is adopted. */
    method LogoutRequest(lease: Lease, fetched: seq<Command>) returns (f: Fault, ghost told: Option<Station>)
      requires Ready() && 0 <= lease.cursor
      modifies this, policy, trusted
      ensures Ready() && Leads(old(Abs()), Abs())
      ensures told.Some? ==>
                Leads(old(Abs()), told.value) && LockedAndSaved(told.value) && Leads(told.value, Abs()) && locallyLocked
      ensures f == NoFault ==>
                && told.Some? && Reconciled(fetched) && snapshot == recovery && SettledBetween(told.value, Abs())
                && recovery.value.lease == lease && lease.directive == LockDirective && lease.sessionId.None?
      ensures f == Refusal ==> !(lease.directive == LockDirective && lease.sessionId.None?)
      ensures smooth ==> told.Some?
      ensures smooth && LogoutLease(old(Abs()), lease) ==> f == NoFault
    {
      ghost var s := Abs();
      told := None;
      f := BeforeLogout();
      ghost var t := Abs();
      if f == NoFault {
        told := Some(t);
        f := LogoutBody(lease, fetched);
        LeadsOn(s, t, Abs());
      }
      if f != NoFault && f != Refusal && f != DataFault {
        ghost var u := Abs();
        Catch(f == CryptoFault || f == PolicyFault, false);
        LeadsOn(s, u, Abs());
        if told.Some? { LeadsOn(t, u, Abs()); }
      }
    }

    /** Everything before the server is told. */
    method BeforeLogout() returns (f: Fault)
      requires Ready()
      modifies this, policy, trusted
      ensures Ready() && Leads(old(Abs()), Abs()) && SameHistory(old(recovery), recovery) && f != Refusal
      ensures f == NoFault ==> LockedAndSaved(Abs())
      ensures f != Refusal && (smooth ==> f == NoFault)
    {
      ghost var s := Abs();
      f := LockAndSave();
      if f != NoFault { return; }
      ghost var t := Abs();
      ReachableLock(t);
      f := LockAgain();
      LeadsOn(s, t, Abs());
    }

    /** The same lease and the same applied number. */
    static ghost predicate SameHistory(r: Option<Recovery>, q: Option<Recovery>) {
      && (r.Some? <==> q.Some?)
      && (r.Some? ==> q.value.lease == r.value.lease && q.value.applied == r.value.applied)
    }

    method LogoutBody(lease: Lease, fetched: seq<Command>) returns (f: Fault)
      requires Ready() && locallyLocked && 0 <= lease.cursor
      modifies this, policy, trusted
      ensures Ready() && Leads(old(Abs()), Abs()) && locallyLocked
      ensures f == NoFault ==>
                && Reconciled(fetched) && snapshot == recovery && SettledBetween(old(Abs()), Abs())
                && recovery.value.lease == lease && lease.directive == LockDirective && lease.sessionId.None?
      ensures f == Refusal ==> !(lease.directive == LockDirective && lease.sessionId.None?)
      ensures smooth && LogoutLease(old(Abs()), lease) ==> f == NoFault
    {
      ghost var s := Abs();
      f := ReceiveAndAccept(lease, FromLogout);
      if f != NoFault { return; }
      ghost var t := Abs();
      f := AdoptAndConclude(lease, FromLogout, fetched);
      LeadsOn(s, t, Abs());
      if f == NoFault { SettledOn(s, t, Abs(), Abs()); }
    }

    /** A token is obtained and the station locked once more before the server is told. */
    method LockAgain() returns (f: Fault)
      requires Ready()
      modifies this, policy, trusted
      ensures Ready() && Leads(old(Abs()), Abs()) && f != Refusal
      ensures SameRecord(old(recovery), recovery) && snapshot == old(snapshot) && (old(locallyLocked) ==> locallyLocked)
      ensures f == NoFault ==> locallyLocked
      ensures f != Refusal && (smooth ==> f == NoFault)
    {
      ghost var s := Abs();
      Interfere();
      ghost var t := Abs();
      var authenticated := Succeeds();
      var i := LockAnswers();
      if !authenticated { f := AnyNetworkFault(); return; }
      var ok := LockLocally(i);
      LeadsOn(s, t, Abs());
      f := if ok then NoFault else PolicyFault;
    }

    method LockAndSave() returns (f: Fault)
      requires Ready()
      modifies this, policy, trusted
      ensures Ready() && Leads(old(Abs()), Abs()) && SameHistory(old(recovery), recovery) && f != Refusal
      ensures f == NoFault ==> locallyLocked && (recovery.Some? ==> snapshot == recovery)
      ensures f != Refusal && (smooth ==> f == NoFault)
    {
      ghost var s := Abs();
      Interfere();
      ghost var t := Abs();
      var i := LockAnswers();
      var ok := LockLocally(i);
      LeadsOn(s, t, Abs());
      f := if ok then NoFault else PolicyFault;
      if ok && recovery.Some? {
        t := Abs();
        f := SaveAfterTicks();
        LeadsOn(s, t, Abs());
      }
    }

    /** prepare-maintenance: lock, block the session of the lease, save. */
    method PrepareMaintenance() returns (f: Fault)
      requires Ready()
      modifies this, policy, trusted
      ensures Ready() && Leads(old(Abs()), Abs())
      ensures f == NoFault ==> locallyLocked
      ensures f == NoFault && recovery.Some? && recovery.value.lease.sessionId.Some? ==>
                snapshot == recovery && recovery.value.blocked == recovery.value.lease.sessionId
      ensures f != Refusal && (smooth ==> f == NoFault)
    {
      ghost var s := Abs();
      Interfere();
      ghost var t := Abs();
      var i := LockAnswers();
      var ok := LockLocally(i);
      LeadsOn(s, t, Abs());
      if !ok { return PolicyFault; }
      f := NoFault;
      if recovery.Some? && recovery.value.lease.sessionId.Some? {
        t := Abs();
        f := BlockAndSave();
        LeadsOn(s, t, Abs());
      }
    }

    method BlockAndSave() returns (f: Fault)
      requires Ready() && recovery.Some? && recovery.value.lease.sessionId.Some? && locallyLocked && view.mode != Active
      modifies this, policy, trusted
      ensures Ready() && Leads(old(Abs()), Abs()) && locallyLocked
      ensures f == NoFault ==> recovery.Some? && snapshot == recovery && recovery.value.blocked == recovery.value.lease.sessionId
      ensures f != Refusal && (smooth ==> f == NoFault)
    {
      ghost var s := Abs();
      BlockLeaseSession();
      ghost var t := Abs();
      f := SaveAfterTicks();
      LeadsOn(s, t, Abs());
    }

    method BlockLeaseSession()
      requires Valid() && recovery.Some? && locallyLocked && recovery.value.lease.sessionId.Some?
      modifies `recovery
      ensures Valid() && Leads(old(Abs()), Abs())
      ensures recovery == Some(old(recovery.value).(blocked := old(recovery.value.lease.sessionId), locallyLocked := true))
    {
      ghost var s := Abs();
      recovery := Some(recovery.value.(blocked := recovery.value.lease.sessionId, locallyLocked := true));
      Taken(s, BlockSession);
    }

    /** Recover, after the snapshot is loaded: the cached policy is applied, the station locked, and a Tick run. When it ends
        normally the restarted station is locked, Windows allows nothing, whatever the crash left behind, and the cached
        policy is in force. */
    method Recover(cached: Option<Policy>, valid: bool, r: OsResult, saved: bool) returns (f: Fault)
      requires Ready()
      modifies this, policy, trusted
      ensures Ready() && Leads(old(Abs()), Abs())
      ensures f == NoFault ==> locallyLocked && !policy.active && policy.os == {}
      ensures f == NoFault && cached.Some? && old(policy.version) < cached.value.version ==>
                policy.version == cached.value.version && policy.allowed == Table(cached.value.apps)
      ensures smooth && (cached.None? || PolicyUpdated(old(policy.View()), cached.value, valid, r, saved).ok) ==> f == NoFault
    {
      ghost var s := Abs();
      LeadsToSelf(s);
      var ok := true;
      if cached.Some? { ok := UpdatePolicy(cached.value, valid, r, saved); }
      ghost var t := Abs();
      var locked := LockTwice();
      LeadsOn(s, t, Abs());
      if !ok || !locked { return PolicyFault; }
      t := Abs();
      ReachableLock(t);
      Interfere();
      LeadsOn(s, t, Abs());
      f := NoFault;
    }

    /** The lock of Recover, and that of its catch clause when the first one fails. */
    method LockTwice() returns (locked: bool)
      requires Ready()
      modifies `view, `recovery, `locallyLocked, policy
      ensures Ready() && Leads(old(Abs()), Abs()) && policy.version == old(policy.version) && policy.allowed == old(policy.allowed)
      ensures locked ==> locallyLocked && policy.os == {}
      ensures smooth ==> locked
    {
      ghost var s := Abs();
      var i := LockAnswers();
      var again := LockAnswers();
      locked := LockLocally(i);
      if !locked {
        ghost var t := Abs();
        var late := LockLocally(again);
        LeadsOn(s, t, Abs());
      }
    }
  }
}
