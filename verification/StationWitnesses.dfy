/** Concrete runs that show why each hypothesis of the station theorems is there. Each follows the flows of the code: start,
    Refresh, login. The Ticks in between, which change nothing in these runs, are left out. */
module StationWitnesses {
  import opened Options
  import opened Leases
  import opened PolicyEnforcement
  import opened StationProtocol
  import opened StationTruth

  const GAME := App("game", "game.exe", false)

  /** An ACTIVE lease for the session, valid until time 100. */
  function ActiveLease(session: Id, cursor: int): Lease {
    Lease(1, 7, Some(session), Some(1), Some(100), 1, 0, 100, 100, cursor, ActiveDirective, true, Some(0), Some(0), None, None)
  }

  /** A LOCK lease with a waiting assignment. */
  function AssignedLease(cursor: int): Lease {
    Lease(2, 7, None, None, None, 1, 0, 100, 100, cursor, LockDirective, false, None, None, Some(9), Some(100))
  }

  const SHOW := ShowInput(0, 0, OsResult.Applied)
  const USE := ApplyInput(0, 0, SMOOTH, SHOW, 0)
  const LOGIN := LoginInput(1, 100, 0, 0, true, OsResult.Applied, 0, SMOOTH, true)

  lemma GamePaths()
    ensures Paths(map["game" := GAME]) == {"game.exe"}
  {
    var m := map["game" := GAME];
    assert "game" in m && m["game"].path == "game.exe";
    assert Paths(m) >= {m["game"].path};
  }

  lemma InitialIsReachable(id: Id, os: set<string>)
    ensures Reachable(Initial(id, os))
  {
    assert Run(Initial(id, os), []) && End(Initial(id, os), []) == Initial(id, os);
  }

  function NewRecord(l: Lease): Recovery { Recovery(l, 0, 0, None, None, true, None, None) }

  const READY := Enforcer(map["game" := GAME], 1, false, Some(false), true, {})

  /** A new station after Recover and the first Refresh up to its configuration: locked, with a policy for one game. */
  lemma StartedStation() returns (s: Station)
    ensures Reachable(s) && s.running && s.id == 7 && s.clock == 0 && s.intent == NoIntent && s.disk.None?
    ensures s.desk == Desk(LOCKED_VIEW, None, true, false, false, READY) && s.saveStatus == Saved
  {
    InitialIsReachable(7, {});
    s := Step(Initial(7, {}), BootNow(0, {}));
    s := Step(s, Lock(SMOOTH));
    var p := Policy(1, [GAME]);
    assert p.apps[..0] == [];
    assert Table(p.apps) == map["game" := GAME];
    s := Step(s, UpdatePolicy(p, true, OsResult.Applied, true));
  }

  /** The same station at the end of that Refresh: the waiting assignment is shown, and the record is saved. */
  lemma AssignedStation() returns (s: Station)
    ensures Reachable(s) && s.running && s.id == 7 && s.clock == 0 && s.intent == NoIntent
    ensures s.desk == Desk(View(Login, Some(9)), Some(NewRecord(AssignedLease(0))), true, false, false, READY)
    ensures s.disk.Some? && s.disk.value.applied == 0 && s.saveStatus == Saved
  {
    s := StartedStation();
    s := Step(s, InstallLease(AssignedLease(0), FromRefresh));
    s := Step(s, UseLease(USE));
    s := Step(s, Save(true));
  }

  /** A customer logs in: the login is admitted and its ACTIVE lease installed and applied. */
  lemma AdmittedStation() returns (s: Station)
    ensures Reachable(s) && s.running && s.id == 7 && s.clock == 0 && s.admitted && s.intent == NoIntent
    ensures s.desk == Desk(View(Login, Some(1)), Some(NewRecord(ActiveLease(1, 0))), true, false, false, READY)
  {
    s := AssignedStation();
    s := Step(s, AdmitLogin(0, 0, 0));
    s := Step(s, InstallLease(ActiveLease(1, 0), FromLogin));
    s := Step(s, UseLease(USE));
  }

  lemma Step(s: Station, a: Action) returns (t: Station)
    requires Reachable(s) && Enabled(s, a)
    ensures t == Do(s, a) && Reachable(t)
  {
    ReachableStep(s, a);
    t := Do(s, a);
  }

  /** The same station after the login: session 1 is Active and Windows allows the game. */
  lemma ActiveStation() returns (s: Station)
    ensures Reachable(s) && s.running && s.id == 7 && s.clock == 0 && s.intent == NoIntent
    ensures s.desk == Desk(View(Active, Some(1)), Some(NewRecord(ActiveLease(1, 0)).(locallyLocked := false)),
                           false, false, false, Enforcer(map["game" := GAME], 1, true, Some(true), true, {"game.exe"}))
  {
    s := AdmittedStation();
    GamePaths();
    s := Step(s, EndLogin(LOGIN));
  }

  /** A login that arrives while the view is Active leaves a record that says "locally locked" under an active policy. */
  lemma LoginWhileActiveIsDishonest() returns (s: Station)
    ensures Reachable(s) && !Honest(s.desk)
  {
    s := ActiveStation();
    s := Step(s, AdmitLogin(0, 0, 0));
    s := Step(s, InstallLease(ActiveLease(1, 0), FromLogin));
  }

  /** The same happens, without any login in the Active mode, after a lease has replaced session 1 by session 2 with no lock
      command in between: the view falls back to Login while the policy stays active. */
  lemma ReplacedSessionIsDishonest() returns (before: Station, s: Station)
    ensures Reachable(before) && before.desk.view.mode != Active && before.desk.enforcer.active
    ensures Reachable(s) && !Honest(s.desk)
  {
    s := ActiveStation();
    s := Step(s, InstallLease(ActiveLease(2, 0), FromRefresh));
    before := Step(s, UseLease(USE));
    s := Step(before, AdmitLogin(0, 0, 0));
    s := Step(s, InstallLease(ActiveLease(2, 0), FromLogin));
  }

  /** It also happens when maintenance, entered with an active policy, is left and the write of its file fails in the Tick of a
      local request, whose exception the pipe absorbs. */
  lemma UnwrittenMaintenanceExitIsDishonest() returns (before: Station, s: Station)
    ensures Reachable(before) && before.desk.view.mode != Active && !before.desk.maintenance && before.desk.enforcer.active
    ensures Reachable(s) && !Honest(s.desk)
  {
    var enter := TickInput(Some(1), 0, true, SMOOTH, OsResult.Applied, true, true, true, 0, 0, SHOW, 0, SMOOTH, SHOW, true);
    s := ActiveStation();
    s := Step(s, Tick(enter));
    before := Step(s, Tick(enter.(maintenanceUntil := None, exitWritten := false)));
    s := Step(before, AdmitLogin(0, 0, 0));
    s := Step(s, InstallLease(ActiveLease(1, 0), FromLogin));
  }

  /** And it happens inside a login whose deadline passes while a process cannot be stopped. */
  lemma UnstoppedLoginIsDishonest() returns (s: Station)
    ensures Reachable(s) && !Honest(s.desk)
  {
    s := AdmittedStation();
    s := Step(s, EndLogin(LOGIN.(t3 := 100, lock := SMOOTH.(stopped := false))));
  }

  /** A failed activation may have left the game allowed, and the lock after it may fail the same way. */
  lemma HalfClosedStation() returns (s: Station)
    ensures Reachable(s) && s.running && s.id == 7 && s.clock == 0
    ensures s.desk == Desk(View(Login, Some(1)), Some(NewRecord(ActiveLease(1, 0))), true, false, false,
                           READY.(applied := None, verified := false, os := {"game.exe"}))
  {
    s := AdmittedStation();
    GamePaths();
    s := Step(s, EndLogin(LOGIN.(r := ScriptFailed({"game.exe"}, false))));
    s := Step(s, Lock(SMOOTH.(r := ScriptFailed({"game.exe"}, false))));
  }

  /** What Windows allows is then not backed by any lease: a Tick between the installation of a LOCK lease and its commands
      stalls and ends normally. */
  lemma UnverifiedWindowsMayStayOpen() returns (s: Station, i: TickInput)
    ensures Reachable(s) && s.running && TickTimes(s.clock, i) && TickCore(s.desk, i).ok && !MaintenanceEnabled(i)
    ensures !TickCore(s.desk, i).d.enforcer.verified && TickCore(s.desk, i).d.enforcer.os != {}
    ensures s.desk.recovery.Some? && MustLock(s.desk.recovery.value.lease, i.deadline)
  {
    s := HalfClosedStation();
    s := Step(s, InstallLease(AssignedLease(1), FromRefresh));
    i := TickInput(None, 0, true, SMOOTH, OsResult.Applied, true, true, true, 0, 0, SHOW, 0, SMOOTH, SHOW, true);
  }

  /** A login whose lease covers one command, to be applied. */
  lemma CoveredStation() returns (s: Station)
    ensures Reachable(s) && s.running && s.id == 7 && s.clock == 0
    ensures s.desk == Desk(View(Login, Some(9)), Some(NewRecord(ActiveLease(1, 1))), true, false, false, READY)
    ensures s.disk.Some? && s.disk.value.applied == 0
  {
    s := AssignedStation();
    s := Step(s, AdmitLogin(0, 0, 0));
    s := Step(s, InstallLease(ActiveLease(1, 1), FromLogin));
  }

  /** The command is applied in memory while the snapshot write after it fails. */
  lemma UnsavedStation() returns (s: Station)
    ensures Reachable(s) && s.running && s.id == 7 && s.clock == 0 && s.saveStatus == Failed
    ensures s.desk == Desk(View(Login, Some(9)), Some(NewRecord(ActiveLease(1, 1)).(applied := 1, pendingAck := Some(1))),
                           true, false, false, READY)
    ensures s.disk.Some? && s.disk.value.applied == 0
  {
    var start := Command(1, SessionStarted, 1, false);
    s := CoveredStation();
    s := Step(s, OnCommand(StartCommand(start)));
    s := Step(s, OnCommand(CommandApplied(start)));
    s := Step(s, Save(false));
  }

  /** Handle's catch clause locks the station and returns; the next Refresh installs a LOCK lease. */
  lemma RetryingStation() returns (s: Station)
    ensures Reachable(s) && s.running && s.saveStatus == Failed && s.disk.Some? && s.disk.value.applied == 0
    ensures s.desk.recovery == Some(NewRecord(AssignedLease(1)).(applied := 1, pendingAck := Some(1)))
  {
    s := UnsavedStation();
    s := Step(s, Lock(SMOOTH));
    s := Step(s, InstallLease(AssignedLease(1), FromRefresh));
  }

  /** Acknowledged is not always durable: when the snapshot write after a command fails inside a login, Handle locks the
      station and returns, and the next Refresh acknowledges a number that is not on disk. */
  lemma FailedSaveIsAcknowledged() returns (s: Station)
    ensures Reachable(s) && 1 in s.server.acked
    ensures s.disk.Some? && s.disk.value.applied == 0
  {
    s := RetryingStation();
    s := Step(s, OnCommand(Ack(Confirmed)));
  }
}
