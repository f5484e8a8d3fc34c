/** The station client as a state machine (ClientRuntime.cs, production environment).

    Every action below is one critical section of `stateSync`, one policy update (which holds `osSync` only), one network
    exchange, or one write of the snapshot file. `gate` serialises Refresh and Handle, while Tick may run between any two actions of theirs.
    The guards in `Enabled` are what the control flow of Refresh and Handle guarantees at that point; the
    ClientRuntime class proves each of them where it takes the step. A crash may follow any action. */
module StationProtocol {
  import opened Options
  import opened Leases
  import opened PolicyEnforcement
  import opened TrustedClock

  datatype Mode = Locked | Login | Active | Maintenance
  datatype View = View(mode: Mode, session: Option<Id>)

  const LOCKED_VIEW := View(Locked, None)

  /** Whether the number of the last applied command has reached the snapshot file. */
  datatype SaveStatus = NotTried | Failed | Saved

  /** Where AckPendingLock stands between its check and the server's answer. */
  datatype AckIntent = NoIntent | Checked(sequence: int, session: Id) | Sent(sequence: int, session: Id)

  /** A lock acknowledgement as the server received it, and whether Windows allowed nothing at that moment. */
  datatype LockAck = LockAck(sequence: int, session: Id, closed: bool)

  /** Why the lock obligations numbered up to `upTo` ended. */
  datatype Discharge =
    | ByLockAck(upTo: int)
    | ByStart(upTo: int, start: Command, under: Lease)
    | ByOtherSession(upTo: int, locked: Id, under: Lease)

  /** What a recovery record stands for: the commands applied, in order, and the obligations ended. */
  datatype Journal = Journal(commands: seq<Command>, discharges: seq<Discharge>)

  const EMPTY_JOURNAL := Journal([], [])

  /** What `stateSync` guards, and the enforcer that only its critical sections and Refresh drive. */
  datatype Desk = Desk(
    view: View, recovery: Option<Recovery>, locallyLocked: bool, commandGap: bool, maintenance: bool, enforcer: Enforcer)

  /** What the server has received. */
  datatype Server = Server(acked: set<int>, pruned: set<int>, lockAcks: seq<LockAck>)

  /** Memory of the service process (`running` to `saveStatus`), the snapshot file and the server.
      `admitted` records that a login request has passed its entry check; the journals and `saveStatus` are
      the history that the record in memory and the record on disk stand for. */
  datatype Station = Station(
    id: Id, running: bool, desk: Desk, clock: Time, admitted: bool, intent: AckIntent, journal: Journal,
    saveStatus: SaveStatus, disk: Option<Recovery>, diskJournal: Journal, server: Server)

  /** The result of a critical section; `ok` is false when it ended with an exception. */
  datatype Out = Out(d: Desk, ok: bool)

  // ---------- the local lock ----------

  /** Answers of the surroundings to LockLocal: the two process stops, the policy script, the privacy review. */
  datatype LockInput = LockInput(stopped: bool, r: OsResult, stoppedAgain: bool, reviewed: bool)

  /** Nothing fails. */
  const SMOOTH := LockInput(true, OsResult.Applied, true, true)

  function LockLocal(d: Desk, i: LockInput): Out {
    var o := SessionActive(d.enforcer, false, true, i.r);
    if d.locallyLocked && d.view.mode == Locked then Out(d.(enforcer := o.state), o.ok)
    else if !i.stopped then Out(d, false)
    else if !o.ok || !i.stoppedAgain then Out(d.(enforcer := o.state), false)
    else
      var ended := d.view.mode == Active && d.view.session.Some?;
      var d1 := d.(enforcer := o.state, view := LOCKED_VIEW,
                   recovery := if ended && d.recovery.Some?
                               then Some(d.recovery.value.(blocked := d.view.session, locallyLocked := true))
                               else d.recovery);
      if ended && !i.reviewed then Out(d1, false)
      else Out(d1.(locallyLocked := true,
                   recovery := if d1.recovery.Some? then Some(d1.recovery.value.(locallyLocked := true)) else None), true)
  }

  // ---------- the waiting assignment ----------

  /** The two clock reads of CanUseAssignment are `a` and `b`. */
  predicate CanUseAssignment(d: Desk, l: Lease, a: Time, b: Time) {
    && !d.maintenance
    && l.directive == LockDirective
    && l.assignmentId.Some?
    && l.assignmentExpiresAt.Some?
    && a < l.assignmentExpiresAt.value
    && b < l.expiresAt
  }

  datatype ShowInput = ShowInput(a: Time, b: Time, r: OsResult)

  function ShowAssignment(d: Desk, i: ShowInput): Out
    requires d.recovery.Some?
  {
    var l := d.recovery.value.lease;
    if !CanUseAssignment(d, l, i.a, i.b) || d.commandGap || d.recovery.value.applied < l.cursor then Out(d, true)
    else
      var o := SessionActive(d.enforcer, false, true, i.r);
      if !o.ok then Out(d.(enforcer := o.state), false)
      else Out(d.(enforcer := o.state, view := View(Login, l.assignmentId)), true)
  }

  // ---------- the one-second tick ----------

  /** Clock reads and answers of the surroundings in TickCore, in the order the code meets them. */
  datatype TickInput = TickInput(
    maintenanceUntil: Option<Time>, t0: Time, identityRunning: bool, identityLock: LockInput,
    reapply: OsResult, stopped: bool, exitWritten: bool, exitLogged: bool,
    a: Time, b: Time, show: ShowInput, deadline: Time, lock: LockInput, lockShow: ShowInput, healthWritten: bool)

  predicate MaintenanceEnabled(i: TickInput) { i.maintenanceUntil.Some? && i.t0 < i.maintenanceUntil.value }

  predicate TickTimes(clock: Time, i: TickInput) {
    clock <= i.t0 <= i.a <= i.b <= i.show.a <= i.show.b <= i.deadline <= i.lockShow.a <= i.lockShow.b
  }

  function TickMaintenance(d: Desk, i: TickInput): Out {
    var c := IdentityChecked(d.enforcer, i.identityRunning);
    var o := if c.ok then c else Reapplied(c.state, i.reapply);
    var d1 := d.(enforcer := o.state);
    if !o.ok || (!d.maintenance && !i.stopped) then Out(d1, false)
    else Out(d1.(maintenance := true, view := View(Maintenance, None)), true)
  }

  function TickIdentity(d: Desk, i: TickInput): Out {
    var c := IdentityChecked(d.enforcer, i.identityRunning);
    if c.ok then Out(d.(enforcer := c.state), true) else LockLocal(d.(enforcer := c.state), i.identityLock)
  }

  function TickExit(d: Desk, i: TickInput): Out {
    if !d.maintenance then Out(d, true)
    else if !i.exitWritten then Out(d.(maintenance := false), false)
    else
      var o := Reapplied(d.enforcer, i.reapply);
      Out(d.(maintenance := false, enforcer := o.state), o.ok && i.exitLogged)
  }

  function TickDeadline(d: Desk, i: TickInput): Out {
    if d.recovery.Some? && CanUseAssignment(d, d.recovery.value.lease, i.a, i.b) && d.locallyLocked
    then ShowAssignment(d, i.show)
    else if d.recovery.None? || MustLock(d.recovery.value.lease, i.deadline)
    then
      var o := LockLocal(d, i.lock);
      if o.ok && o.d.recovery.Some? then ShowAssignment(o.d, i.lockShow) else o
    else Out(d, true)
  }

  function TickOutside(d: Desk, i: TickInput): Out {
    var o1 := TickIdentity(d, i);
    if !o1.ok then o1
    else
      var o2 := TickExit(o1.d, i);
      if !o2.ok then o2 else TickDeadline(o2.d, i)
  }

  function TickCore(d: Desk, i: TickInput): Out {
    var o := if MaintenanceEnabled(i) then TickMaintenance(d, i) else TickOutside(d, i);
    Out(o.d, o.ok && i.healthWritten)
  }

  // ---------- applying the installed lease ----------

  datatype ApplyInput = ApplyInput(a: Time, b: Time, lock: LockInput, show: ShowInput, deadline: Time)

  predicate ApplyTimes(clock: Time, i: ApplyInput) {
    clock <= i.a <= i.b <= i.show.a <= i.show.b <= i.deadline
  }

  function ApplyLease(d: Desk, i: ApplyInput): Out
    requires d.recovery.Some?
  {
    var r := d.recovery.value;
    var l := r.lease;
    if d.maintenance then Out(d, true)
    else if r.applied < l.cursor || d.commandGap || (l.sessionId.Some? && r.blocked == l.sessionId) then LockLocal(d, i.lock)
    else if CanUseAssignment(d, l, i.a, i.b) then
      var o := if d.locallyLocked then Out(d, true) else LockLocal(d, i.lock);
      if !o.ok then o else ShowAssignment(o.d, i.show)
    else if MustLock(l, i.deadline) then LockLocal(d, i.lock)
    else if d.view.mode != Active || d.view.session != l.sessionId then Out(d.(view := View(Login, l.sessionId)), true)
    else Out(d, true)
  }

  // ---------- login ----------

  /** The entry check of a login request, with the clock reads of its two alternatives. */
  predicate LoginAdmitted(d: Desk, a: Time, b: Time, t: Time)
    requires d.recovery.Some?
  {
    var r := d.recovery.value;
    && !d.maintenance
    && !d.commandGap
    && r.lease.cursor <= r.applied
    && (CanUseAssignment(d, r.lease, a, b) ||
        (r.lease.directive == ActiveDirective && r.blocked != r.lease.sessionId && !MustLock(r.lease, t)))
  }

  datatype LoginInput = LoginInput(
    session: Id, endsAt: Time, t1: Time, t2: Time, valid: bool, r: OsResult, t3: Time, lock: LockInput, saved: bool)

  predicate LoginTimes(clock: Time, i: LoginInput) { clock <= i.t1 <= i.t2 <= i.t3 }

  predicate LoginRefused(d: Desk, i: LoginInput)
    requires d.recovery.Some?
  {
    var r := d.recovery.value;
    || r.lease.sessionId != Some(i.session)
    || d.commandGap
    || r.applied < r.lease.cursor
    || r.blocked == r.lease.sessionId
    || i.endsAt <= i.t1
    || MustLock(r.lease, i.t2)
    || d.maintenance
  }

  function FinishLogin(d: Desk, i: LoginInput): Out
    requires d.recovery.Some?
  {
    var r := d.recovery.value;
    if LoginRefused(d, i) then Out(d, true)
    else
      var o := SessionActive(d.enforcer, true, i.valid, i.r);
      var d1 := d.(enforcer := o.state);
      if !o.ok then Out(d1, false)
      else if MustLock(r.lease, i.t3) then LockLocal(d1.(locallyLocked := false), i.lock)
      else Out(d1.(locallyLocked := false, recovery := Some(r.(locallyLocked := false)),
                   view := View(Active, Some(i.session))), true)
  }

  /** The login ends with an active session, which is then saved. */
  predicate LoginWon(d: Desk, i: LoginInput)
    requires d.recovery.Some?
  {
    !LoginRefused(d, i) && SessionActive(d.enforcer, true, i.valid, i.r).ok && !MustLock(d.recovery.value.lease, i.t3)
  }

  // ---------- the snapshot file ----------

  function SaveRecovery(s: Station, written: bool): Station {
    if s.desk.recovery.None? then s
    else
      var r := s.desk.recovery.value.(floor := s.clock);
      var t := s.(desk := s.desk.(recovery := Some(r)));
      if written then t.(disk := Some(r), diskJournal := s.journal, saveStatus := Saved)
      else t.(saveStatus := if s.saveStatus == Saved then Saved else Failed)
  }

  // ---------- commands and leases: the new record ----------

  datatype Origin = FromRefresh | FromLogin | FromLogout

  function Installed(previous: Option<Recovery>, l: Lease, now: Time, origin: Origin): Recovery {
    match previous
    case None => Recovery(l, 0, now, None, None, true, None, None)
    case Some(r) => r.(lease := l, floor := now, locallyLocked := if origin == FromRefresh then r.locallyLocked else true)
  }

  function WithRecord(s: Station, r: Recovery): Station { s.(desk := s.desk.(recovery := Some(r))) }

  // ---------- process life ----------

  function EmptyDesk(os: set<string>): Desk { Desk(LOCKED_VIEW, None, false, false, false, Fresh(os)) }

  function Crash(s: Station): Station {
    s.(running := false, desk := EmptyDesk(s.desk.enforcer.os), admitted := false, intent := NoIntent,
       journal := s.diskJournal, saveStatus := Saved)
  }

  /** A new process: the snapshot is loaded, marked locally locked, and the clock starts at its floor or above. Windows holds
      any list by now: a policy script that the old process left behind may have ended in the meantime. */
  function Boot(s: Station, wall: Time, held: set<string>): Station {
    var t := s.(running := true, desk := EmptyDesk(held));
    if s.disk.None? then t.(clock := wall)
    else WithRecord(t.(clock := StartValue(s.disk.value.floor, wall, wall)), s.disk.value.(locallyLocked := true))
  }

  function Initial(id: Id, os: set<string>): Station {
    Station(id, false, EmptyDesk(os), 0, false, NoIntent, EMPTY_JOURNAL, Saved, None, EMPTY_JOURNAL, Server({}, {}, []))
  }

  // ---------- actions ----------

  /** The server's answer to a command acknowledgement. When the response is lost the server has still seen it. */
  datatype AckAnswer = Confirmed | ResponseLost | NotFound

  /** The steps of ReconcileCommands and AckPendingCommand. */
  datatype CommandStep =
    | Ack(answer: AckAnswer)
    | ClearAck
    | LockCommand(c: Command)
    | StartCommand(c: Command)
    | CommandApplied(c: Command)

  /** The steps of AckPendingLock. */
  datatype LockAckStep = CheckLockAck | DropLock | SendLockAck | ClearLock | AbandonAck

  datatype Action =
    | Pass(d: nat)
    | Tick(tick: TickInput)
    | Lock(lock: LockInput)
    | UpdatePolicy(p: Policy, valid: bool, r: OsResult, saved: bool)
    | Observe(serverTime: Time)
    | AdmitLogin(a: Time, b: Time, t: Time)
    | InstallLease(l: Lease, origin: Origin)
    | SetGap(gap: bool)
    | OnCommand(command: CommandStep)
    | OnLockAck(ack: LockAckStep)
    | UseLease(use: ApplyInput)
    | Save(written: bool)
    | EndLogin(login: LoginInput)
    | BlockSession
    | CrashNow
    | BootNow(wall: Time, held: set<string>)

  /** The command is the next one and the installed lease covers it. */
  predicate Next(r: Recovery, c: Command) {
    0 < c.sequence == r.applied + 1 <= r.lease.cursor
  }

  /** The command is the one that the server's log holds under its number. */
  predicate FromLog(log: seq<Command>, c: Command) {
    0 < c.sequence <= |log| && log[c.sequence - 1] == c
  }

  predicate CommandEnabled(s: Station, k: CommandStep) {
    && s.desk.recovery.Some?
    && var r := s.desk.recovery.value;
       match k
       case Ack(answer) =>
         && r.pendingAck.Some?
         && s.saveStatus != NotTried
         && (answer == NotFound ==> r.pendingAck.value <= r.applied && r.pendingAck.value <= r.lease.cursor)
       case ClearAck => r.pendingAck.Some? && r.pendingAck.value in s.server.acked + s.server.pruned
       case LockCommand(c) => Next(r, c) && c.Locks() && s.desk.locallyLocked
       case StartCommand(c) => Next(r, c) && c.kind == SessionStarted && !c.expired
       case CommandApplied(c) =>
         && Next(r, c)
         && r.pendingAck.None?
         && (c.Locks() ==> s.desk.locallyLocked && r.pendingLock == Some(c.sequence))
  }

  function RecordAfter(r: Recovery, k: CommandStep): Recovery {
    match k
    case Ack(_) => r
    case ClearAck => r.(pendingAck := None)
    case LockCommand(c) =>
      r.(pendingLock := Some(c.sequence), pendingLockSession := Some(c.session), locallyLocked := true,
         blocked := Some(c.session))
    case StartCommand(c) => AcceptStarted(r, c.session, c.sequence)
    case CommandApplied(c) => r.(applied := c.sequence, pendingAck := Some(c.sequence))
  }

  function JournalAfter(r: Recovery, j: Journal, k: CommandStep): Journal {
    match k
    case StartCommand(c) =>
      if StartAccepted(r, c.session, c.sequence) && r.pendingLock.Some?
      then Discharged(j, ByStart(r.pendingLock.value, c, r.lease)) else j
    case CommandApplied(c) => j.(commands := j.commands + [c])
    case _ => j
  }

  function ServerAfter(v: Server, n: int, answer: AckAnswer): Server {
    if answer == NotFound then v.(pruned := v.pruned + {n}) else v.(acked := v.acked + {n})
  }

  function DoCommand(s: Station, k: CommandStep): Station
    requires CommandEnabled(s, k)
  {
    var r := s.desk.recovery.value;
    if k.Ack? then s.(server := ServerAfter(s.server, r.pendingAck.value, k.answer))
    else WithRecord(s, RecordAfter(r, k))
           .(journal := JournalAfter(r, s.journal, k), saveStatus := if k.CommandApplied? then NotTried else s.saveStatus)
  }

  function Discharged(j: Journal, d: Discharge): Journal { j.(discharges := j.discharges + [d]) }

  /** The installed lease is ACTIVE for a session other than the one to be acknowledged as locked. */
  predicate OtherSessionActive(r: Recovery) {
    r.lease.directive == ActiveDirective && r.lease.sessionId != r.pendingLockSession
  }

  predicate LockAckEnabled(s: Station, k: LockAckStep) {
    && s.desk.recovery.Some?
    && var r := s.desk.recovery.value;
       match k
       case CheckLockAck =>
         && !s.desk.maintenance && s.desk.enforcer.verified && r.locallyLocked
         && r.pendingLock.Some? && r.pendingLockSession.Some? && !OtherSessionActive(r)
       case DropLock => r.pendingLock.Some? && r.pendingLockSession.Some? && OtherSessionActive(r)
       case SendLockAck => s.intent.Checked?
       case ClearLock => s.intent.Sent? && r.pendingLock == Some(s.intent.sequence)
       case AbandonAck => true
  }

  function DoLockAck(s: Station, k: LockAckStep): Station
    requires LockAckEnabled(s, k)
  {
    var r := s.desk.recovery.value;
    match k
    case CheckLockAck => s.(intent := Checked(r.pendingLock.value, r.pendingLockSession.value))
    case DropLock =>
      WithRecord(s, r.(pendingLock := None, pendingLockSession := None))
        .(journal := Discharged(s.journal,
                                ByOtherSession(r.pendingLock.value, r.pendingLockSession.value, r.lease)))
    case SendLockAck =>
      var sent := LockAck(s.intent.sequence, s.intent.session, s.desk.enforcer.os == {});
      s.(intent := Sent(sent.sequence, sent.session), server := s.server.(lockAcks := s.server.lockAcks + [sent]))
    case ClearLock =>
      WithRecord(s, r.(pendingLock := None, pendingLockSession := None))
        .(intent := NoIntent, journal := Discharged(s.journal, ByLockAck(s.intent.sequence)))
    case AbandonAck => s.(intent := NoIntent)
  }

  predicate Enabled(s: Station, a: Action) {
    match a
    case BootNow(_, _) => !s.running
    case Tick(i) => s.running && TickTimes(s.clock, i)
    case AdmitLogin(a, b, t) =>
      s.running && s.desk.recovery.Some? && s.clock <= a <= b <= t && LoginAdmitted(s.desk, a, b, t)
    case InstallLease(l, origin) =>
      && s.running
      && FieldsAccepted(l, s.id)
      && FollowsHistory(s.desk.recovery, l)
      && 0 <= l.cursor
      && (origin == FromLogin ==> s.desk.recovery.Some? && s.admitted)
      && (origin == FromLogout ==> s.desk.locallyLocked)
    case OnCommand(k) => s.running && CommandEnabled(s, k)
    case OnLockAck(k) => s.running && LockAckEnabled(s, k)
    case UseLease(i) => s.running && s.desk.recovery.Some? && ApplyTimes(s.clock, i)
    case EndLogin(i) =>
      s.running && s.desk.recovery.Some? && LoginTimes(s.clock, i) && s.admitted && s.intent == NoIntent
    case BlockSession =>
      && s.running && s.desk.recovery.Some? && s.desk.locallyLocked
      && s.desk.recovery.value.lease.sessionId.Some?
    case _ => s.running
  }

  /** The station after a critical section whose last clock read was `t`. */
  function After(s: Station, d: Desk, t: Time): Station { s.(desk := d, clock := if s.clock < t then t else s.clock) }

  function Do(s: Station, a: Action): Station
    requires Enabled(s, a)
  {
    match a
    case Pass(d) => s.(clock := s.clock + d)
    case Tick(i) => After(s, TickCore(s.desk, i).d, i.lockShow.b)
    case Lock(i) => s.(desk := LockLocal(s.desk, i).d)
    case UpdatePolicy(p, valid, r, saved) =>
      s.(desk := s.desk.(enforcer := PolicyUpdated(s.desk.enforcer, p, valid, r, saved).state))
    case Observe(t) => After(s, s.desk, t)
    case AdmitLogin(_, _, t) => After(s, s.desk, t).(admitted := true)
    case InstallLease(l, origin) => WithRecord(s, Installed(s.desk.recovery, l, s.clock, origin))
    case SetGap(gap) => s.(desk := s.desk.(commandGap := gap))
    case OnCommand(k) => DoCommand(s, k)
    case OnLockAck(k) => DoLockAck(s, k)
    case UseLease(i) => After(s, ApplyLease(s.desk, i).d, i.deadline)
    case Save(written) => SaveRecovery(s, written)
    case EndLogin(i) =>
      var t := After(s, FinishLogin(s.desk, i).d, i.t3).(admitted := false);
      if LoginWon(s.desk, i) then SaveRecovery(t, i.saved) else t
    case BlockSession =>
      var r := s.desk.recovery.value;
      WithRecord(s, r.(blocked := r.lease.sessionId, locallyLocked := true))
    case CrashNow => Crash(s)
    case BootNow(wall, held) => Boot(s, wall, held)
  }

  // ---------- runs ----------

  ghost predicate Run(s: Station, run: seq<Action>)
    decreases |run|
  {
    run != [] ==> Enabled(s, run[0]) && Run(Do(s, run[0]), run[1..])
  }

  ghost function End(s: Station, run: seq<Action>): Station
    requires Run(s, run)
    decreases |run|
  {
    if run == [] then s else End(Do(s, run[0]), run[1..])
  }

  ghost predicate Reachable(s: Station) {
    exists id, os, run :: Run(Initial(id, os), run) && End(Initial(id, os), run) == s
  }

  lemma {:induction false} Extend(s: Station, run: seq<Action>, a: Action)
    requires Run(s, run) && Enabled(End(s, run), a)
    ensures Run(s, run + [a]) && End(s, run + [a]) == Do(End(s, run), a)
    decreases |run|
  {
    if run == [] {
      assert run + [a] == [a];
    } else {
      Extend(Do(s, run[0]), run[1..], a);
      assert (run + [a])[1..] == run[1..] + [a];
    }
  }

  lemma ReachableStep(s: Station, a: Action)
    requires Reachable(s) && Enabled(s, a)
    ensures Reachable(Do(s, a))
  {
    var id, os, run :| Run(Initial(id, os), run) && End(Initial(id, os), run) == s;
    Extend(Initial(id, os), run, a);
  }

  /** The second state is the end of a run of one process from the first. */
  ghost predicate Leads(s: Station, t: Station) {
    exists run :: Run(s, run) && SameProcess(run) && End(s, run) == t
  }

  ghost predicate SameProcess(run: seq<Action>) {
    forall i :: 0 <= i < |run| ==> !run[i].CrashNow? && !run[i].BootNow?
  }

  lemma LeadsToSelf(s: Station)
    ensures Leads(s, s)
  {
    assert Run(s, []) && SameProcess([]) && End(s, []) == s;
  }

  lemma LeadsStep(s: Station, a: Action)
    requires Enabled(s, a) && !a.CrashNow? && !a.BootNow?
    ensures Leads(s, Do(s, a))
  {
    var run := [a];
    assert Run(Do(s, a), run[1..]) && End(Do(s, a), run[1..]) == Do(s, a);
    assert Run(s, run) && SameProcess(run) && End(s, run) == Do(s, a);
  }

  lemma Taken(s: Station, a: Action)
    requires Reachable(s) && Enabled(s, a) && !a.CrashNow? && !a.BootNow?
    ensures Reachable(Do(s, a)) && Leads(s, Do(s, a))
  {
    ReachableStep(s, a);
    LeadsStep(s, a);
  }

  lemma {:induction false} Join(s: Station, one: seq<Action>, two: seq<Action>)
    requires Run(s, one) && Run(End(s, one), two)
    ensures Run(s, one + two) && End(s, one + two) == End(End(s, one), two)
    decreases |one|
  {
    if one == [] {
      assert one + two == two;
    } else {
      Join(Do(s, one[0]), one[1..], two);
      assert (one + two)[1..] == one[1..] + two;
    }
  }

  lemma LeadsOn(s: Station, t: Station, u: Station)
    requires Leads(s, t) && Leads(t, u)
    ensures Leads(s, u)
  {
    var one :| Run(s, one) && SameProcess(one) && End(s, one) == t;
    var two :| Run(t, two) && SameProcess(two) && End(t, two) == u;
    Join(s, one, two);
    assert SameProcess(one + two);
  }
}
