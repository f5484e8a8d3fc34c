/** The command log, the snapshot file, lock obligations and time, over every run with crashes and failures. */
module StationHistory {
  import opened Options
  import opened Leases
  import opened PolicyEnforcement
  import opened TrustedClock
  import opened StationProtocol
  import opened StationSafety

  // ---------- the crash-consistent command log ----------

  /** The record stands for the journal: the commands are numbered 1, 2, ... up to `applied`, within the cursor, and
      each of them except the one still to be acknowledged has been settled with the server. */
  ghost predicate Fits(r: Recovery, j: Journal, settled: set<int>) {
    && |j.commands| == r.applied <= r.lease.cursor
    && (forall i :: 0 <= i < |j.commands| ==> j.commands[i].sequence == i + 1)
    && (r.pendingAck.Some? ==> 0 < r.pendingAck.value == r.applied)
    && (forall k :: 0 < k <= r.applied && r.pendingAck != Some(k) ==> k in settled)
  }

  function Settled(s: Station): set<int> { s.server.acked + s.server.pruned }

  /** The record on disk is an earlier state of the record in memory. */
  ghost predicate Behind(s: Station) {
    s.running && s.disk.Some? ==>
      && s.desk.recovery.Some?
      && s.diskJournal.commands <= s.journal.commands
      && s.disk.value.lease.cursor <= s.desk.recovery.value.lease.cursor
      && s.disk.value.lease.issuedAt <= s.desk.recovery.value.lease.issuedAt
      && s.disk.value.floor <= s.clock
  }

  /** `Saved` says exactly that the last applied number is on disk. */
  ghost predicate SaveKnown(s: Station) {
    s.desk.recovery.Some? ==>
      var n := s.desk.recovery.value.applied;
      if s.saveStatus == Saved then n == 0 || (s.disk.Some? && s.disk.value.applied == n)
      else 0 < n && (s.disk.Some? ==> s.disk.value.applied < n)
  }

  ghost predicate LogInv(s: Station) {
    && (s.desk.recovery.Some? ==> Fits(s.desk.recovery.value, s.journal, Settled(s)))
    && (s.disk.Some? ==> Fits(s.disk.value, s.diskJournal, Settled(s)))
    && (s.disk.None? ==> s.diskJournal == EMPTY_JOURNAL)
    && (s.running && s.desk.recovery.None? ==> s.disk.None? && s.journal == EMPTY_JOURNAL && s.saveStatus == Saved)
    && Behind(s)
    && SaveKnown(s)
  }

  lemma SameRecordKeepsLog(s: Station, t: Station)
    requires LogInv(s) && SameRecord(s.desk.recovery, t.desk.recovery)
    requires t == s.(desk := t.desk, clock := t.clock, admitted := t.admitted) && s.clock <= t.clock
    ensures LogInv(t)
  {
  }

  lemma SaveKeepsLog(s: Station, written: bool)
    requires LogInv(s) && s.running
    ensures LogInv(SaveRecovery(s, written))
  {
  }

  lemma CommandKeepsLog(s: Station, k: CommandStep)
    requires LogInv(s) && s.running && CommandEnabled(s, k)
    ensures LogInv(DoCommand(s, k))
  {
    var t := DoCommand(s, k);
    assert forall n :: n in Settled(s) ==> n in Settled(t);
    if k.CommandApplied? {
      assert s.diskJournal.commands <= s.journal.commands <= t.journal.commands;
    }
  }

  lemma InstallKeepsLog(s: Station, l: Lease, origin: Origin)
    requires LogInv(s) && Enabled(s, InstallLease(l, origin))
    ensures LogInv(Do(s, InstallLease(l, origin)))
  {
  }

  lemma SectionKeepsLog(s: Station, a: Action)
    requires LockInv(s) && LogInv(s) && Enabled(s, a) && Section(a)
    ensures LogInv(Do(s, a))
  {
    SectionKeepsLock(s, a);
    var d := SectionDesk(s, a);
    if a.EndLogin? {
      var t := After(s, d, a.login.t3).(admitted := false);
      SameRecordKeepsLog(s, t);
      SaveKeepsLog(t, a.login.saved);
    } else {
      SameRecordKeepsLog(s, Do(s, a));
    }
  }

  lemma LifeKeepsLog(s: Station, a: Action)
    requires LockInv(s) && LogInv(s) && Enabled(s, a) && (a.CrashNow? || a.BootNow?)
    ensures LogInv(Do(s, a))
  {
  }

  lemma LockAckKeepsLog(s: Station, k: LockAckStep)
    requires LogInv(s) && s.running && LockAckEnabled(s, k)
    ensures LogInv(DoLockAck(s, k))
  {
  }

  lemma StepKeepsLog(s: Station, a: Action)
    requires LockInv(s) && LogInv(s) && Enabled(s, a)
    ensures LogInv(Do(s, a))
  {
    if Section(a) {
      SectionKeepsLog(s, a);
    } else if a.OnCommand? {
      CommandKeepsLog(s, a.command);
    } else if a.InstallLease? {
      InstallKeepsLog(s, a.l, a.origin);
    } else if a.Save? {
      SaveKeepsLog(s, a.written);
    } else if a.OnLockAck? {
      LockAckKeepsLog(s, a.ack);
    } else if a.CrashNow? || a.BootNow? {
      LifeKeepsLog(s, a);
    } else {
      RestKeepsLog(s, a);
    }
  }

  lemma RestKeepsLog(s: Station, a: Action)
    requires LogInv(s) && Enabled(s, a) && (a.Pass? || a.Observe? || a.AdmitLogin? || a.SetGap? || a.BlockSession?)
    ensures LogInv(Do(s, a))
  {
    SameRecordKeepsLog(s, Do(s, a));
  }

  lemma {:induction false} RunKeepsLog(s: Station, run: seq<Action>)
    requires LockInv(s) && LogInv(s) && Run(s, run)
    ensures LogInv(End(s, run))
    decreases |run|
  {
    if run != [] {
      StepKeepsLock(s, run[0]);
      StepKeepsLog(s, run[0]);
      RunKeepsLog(Do(s, run[0]), run[1..]);
    }
  }

  lemma ReachableLog(s: Station)
    requires Reachable(s)
    ensures LockInv(s) && LogInv(s)
  {
    var id, os, run :| Run(Initial(id, os), run) && End(Initial(id, os), run) == s;
    RunKeepsLock(Initial(id, os), run);
    RunKeepsLog(Initial(id, os), run);
  }

  /** Crash-consistent command log: in every reachable state the commands applied are exactly the numbers 1 to `applied` in
      order, `applied` is within the cursor of the signed lease, the pending acknowledgement if any is for `applied`, and
      every other applied number is acknowledged or pruned; the same holds of the snapshot file, a prefix of memory. */
  lemma CommandLog(s: Station)
    requires Reachable(s)
    ensures s.desk.recovery.Some? ==> Fits(s.desk.recovery.value, s.journal, Settled(s))
    ensures s.disk.Some? ==> Fits(s.disk.value, s.diskJournal, Settled(s))
    ensures s.running && s.disk.Some? ==> s.desk.recovery.Some? && s.diskJournal.commands <= s.journal.commands
  {
    ReachableLog(s);
  }

  /** Every command applied in the run was taken from the log. */
  ghost predicate Deliveries(log: seq<Command>, s: Station, run: seq<Action>)
    requires Run(s, run)
    decreases |run|
  {
    run != [] ==>
      && (run[0].OnCommand? && run[0].command.CommandApplied? ==> FromLog(log, run[0].command.c))
      && Deliveries(log, Do(s, run[0]), run[1..])
  }

  ghost predicate Drawn(log: seq<Command>, j: Journal) {
    forall i :: 0 <= i < |j.commands| ==> FromLog(log, j.commands[i])
  }

  lemma StepKeepsDrawn(log: seq<Command>, s: Station, a: Action)
    requires Enabled(s, a) && Drawn(log, s.journal) && Drawn(log, s.diskJournal)
    requires a.OnCommand? && a.command.CommandApplied? ==> FromLog(log, a.command.c)
    ensures Drawn(log, Do(s, a).journal) && Drawn(log, Do(s, a).diskJournal)
  {
  }

  lemma {:induction false} RunKeepsDrawn(log: seq<Command>, s: Station, run: seq<Action>)
    requires Run(s, run) && Deliveries(log, s, run) && Drawn(log, s.journal) && Drawn(log, s.diskJournal)
    ensures Drawn(log, End(s, run).journal) && Drawn(log, End(s, run).diskJournal)
    decreases |run|
  {
    if run != [] {
      StepKeepsDrawn(log, s, run[0]);
      RunKeepsDrawn(log, Do(s, run[0]), run[1..]);
    }
  }

  /** Whatever was lost, repeated, reordered or crashed: if the server serves one log, the commands applied are the
      prefix of that log whose length is the applied number, in memory and on disk. */
  lemma AppliedIsLogPrefix(id: Id, os: set<string>, log: seq<Command>, run: seq<Action>)
    requires Run(Initial(id, os), run) && Deliveries(log, Initial(id, os), run)
    ensures var s := End(Initial(id, os), run);
            && (s.desk.recovery.Some? ==> 0 <= s.desk.recovery.value.applied <= |log| &&
                                          s.journal.commands == log[..s.desk.recovery.value.applied])
            && (s.disk.Some? ==> 0 <= s.disk.value.applied <= |log| && s.diskJournal.commands == log[..s.disk.value.applied])
  {
    var s := End(Initial(id, os), run);
    RunKeepsLog(Initial(id, os), run);
    RunKeepsDrawn(log, Initial(id, os), run);
    if s.desk.recovery.Some? { PrefixOfLog(log, s.journal, s.desk.recovery.value, Settled(s)); }
    if s.disk.Some? { PrefixOfLog(log, s.diskJournal, s.disk.value, Settled(s)); }
  }

  lemma PrefixOfLog(log: seq<Command>, j: Journal, r: Recovery, settled: set<int>)
    requires Drawn(log, j) && Fits(r, j, settled)
    ensures 0 <= r.applied <= |log| && j.commands == log[..r.applied]
  {
    if j.commands != [] { assert FromLog(log, j.commands[|j.commands| - 1]); }
  }

  // ---------- monotone signed history ----------

  /** Neither the cursor nor the issue time of the lease goes back. */
  ghost predicate NotBefore(earlier: Option<Recovery>, later: Option<Recovery>) {
    earlier.Some? ==>
      && later.Some?
      && earlier.value.lease.cursor <= later.value.lease.cursor
      && earlier.value.lease.issuedAt <= later.value.lease.issuedAt
      && earlier.value.applied <= later.value.applied
  }

  ghost predicate Forward(s: Station, t: Station) {
    && NotBefore(s.disk, t.disk)
    && (s.disk.Some? ==> s.disk.value.floor <= t.disk.value.floor)
    && (t.running ==> NotBefore(s.disk, t.desk.recovery))
  }

  /** Forward in memory as well: what every step within a process does. */
  ghost predicate Onward(s: Station, t: Station) {
    NotBefore(s.desk.recovery, t.desk.recovery) && s.clock <= t.clock &&
    ((t.disk == s.disk) || (t.disk == t.desk.recovery && t.disk.Some? && t.disk.value.floor == t.clock))
  }

  lemma OnwardIsForward(s: Station, t: Station)
    requires LogInv(s) && s.running && Onward(s, t)
    ensures Forward(s, t)
  {
  }

  lemma SectionGoesOnward(s: Station, a: Action)
    requires LockInv(s) && Enabled(s, a) && Section(a)
    ensures Onward(s, Do(s, a))
  {
    SectionKeepsLock(s, a);
  }

  lemma CommandGoesOnward(s: Station, k: CommandStep)
    requires CommandEnabled(s, k)
    ensures Onward(s, DoCommand(s, k))
  {
  }

  lemma LockAckGoesOnward(s: Station, k: LockAckStep)
    requires LockAckEnabled(s, k)
    ensures Onward(s, DoLockAck(s, k))
  {
  }

  lemma StepGoesOnward(s: Station, a: Action)
    requires LockInv(s) && Enabled(s, a) && !a.CrashNow? && !a.BootNow?
    ensures Onward(s, Do(s, a))
  {
    if Section(a) {
      SectionGoesOnward(s, a);
    } else if a.OnCommand? {
      CommandGoesOnward(s, a.command);
    } else if a.OnLockAck? {
      LockAckGoesOnward(s, a.ack);
    }
  }

  lemma StepGoesForward(s: Station, a: Action)
    requires LockInv(s) && LogInv(s) && Enabled(s, a)
    ensures Forward(s, Do(s, a))
    ensures !a.CrashNow? && !a.BootNow? ==> Onward(s, Do(s, a))
  {
    if !a.CrashNow? && !a.BootNow? {
      StepGoesOnward(s, a);
      OnwardIsForward(s, Do(s, a));
    }
  }

  lemma {:induction false} RunGoesForward(s: Station, run: seq<Action>)
    requires LockInv(s) && LogInv(s) && Run(s, run)
    ensures Forward(s, End(s, run))
    ensures (forall i :: 0 <= i < |run| ==> !run[i].CrashNow? && !run[i].BootNow?) ==>
              NotBefore(s.desk.recovery, End(s, run).desk.recovery) && s.clock <= End(s, run).clock
    decreases |run|
  {
    if run != [] {
      StepKeepsLock(s, run[0]);
      StepKeepsLog(s, run[0]);
      StepGoesForward(s, run[0]);
      RunGoesForward(Do(s, run[0]), run[1..]);
    }
  }

  /** Monotone signed history: from any reachable state on, accepted leases and applied numbers never go back within a
      process, and across any crashes and restarts they never go back behind the last snapshot saved. */
  lemma MonotoneHistory(s: Station, run: seq<Action>)
    requires Reachable(s) && Run(s, run)
    ensures NotBefore(s.disk, End(s, run).disk)
    ensures End(s, run).running ==> NotBefore(s.disk, End(s, run).desk.recovery)
    ensures (forall i :: 0 <= i < |run| ==> !run[i].CrashNow? && !run[i].BootNow?) ==>
              NotBefore(s.desk.recovery, End(s, run).desk.recovery)
  {
    ReachableLog(s);
    RunGoesForward(s, run);
  }

  lemma FinishLoginEntersActive(d: Desk, i: LoginInput)
    requires DeskInv(d) && d.recovery.Some? && d.view.mode != Active && FinishLogin(d, i).d.view.mode == Active
    ensures !LoginRefused(d, i) && !MustLock(d.recovery.value.lease, i.t3)
    ensures FinishLogin(d, i).d.view.session == Some(i.session)
  {
    if DeadlineInLogin(d, i) {
      LockLocalKeeps(d.(enforcer := SessionActive(d.enforcer, true, i.valid, i.r).state, locallyLocked := false), i.lock);
    }
  }

  /** Only the end of a login enters the Active mode, and it does so with every command of the signed lease applied and
      under a lease for that very session. */
  lemma EntryToActive(s: Station, a: Action)
    requires Reachable(s) && Enabled(s, a)
    requires s.desk.view.mode != Active && Do(s, a).desk.view.mode == Active
    ensures a.EndLogin? && s.desk.recovery.Some?
    ensures s.desk.recovery.value.applied == s.desk.recovery.value.lease.cursor
    ensures Do(s, a).desk.view.session == s.desk.recovery.value.lease.sessionId
    ensures Entitled(s.desk.recovery.value.lease, a.login.t3)
  {
    ReachableLog(s);
    if a.EndLogin? {
      UnlockedMeansEntitled(s.desk.recovery.value.lease, s.id, a.login.t3);
      FinishLoginEntersActive(s.desk, a.login);
    } else {
      OthersDoNotActivate(s, a);
    }
  }

  lemma OthersDoNotActivate(s: Station, a: Action)
    requires LockInv(s) && Enabled(s, a) && !a.EndLogin?
    ensures Do(s, a).desk.view.mode == Active ==> s.desk.view.mode == Active
  {
    if Section(a) {
      SectionKeepsLock(s, a);
    } else if a.OnCommand? {
      CommandKeepsLock(s, a.command);
    } else if a.OnLockAck? {
      LockAckKeepsLock(s, a.ack);
    }
  }

  // ---------- expired stays expired ----------

  /** A lease that must lock at the floor of the snapshot on disk must lock at the trusted time of every later state that
      runs, across any number of crashes and restarts and whatever the wall clock shows; and within a process a lease
      that must lock now must lock ever after. */
  lemma ExpiredForever(s: Station, run: seq<Action>, l: Lease)
    requires Reachable(s) && Run(s, run) && End(s, run).running
    ensures s.disk.Some? && MustLock(l, s.disk.value.floor) ==> MustLock(l, End(s, run).clock)
    ensures (forall i :: 0 <= i < |run| ==> !run[i].CrashNow? && !run[i].BootNow?) && MustLock(l, s.clock) ==>
              MustLock(l, End(s, run).clock)
  {
    ReachableLog(s);
    RunGoesForward(s, run);
    RunKeepsLog(s, run);
    if s.disk.Some? && MustLock(l, s.disk.value.floor) {
      ExpiredStaysExpired(l, s.disk.value.floor, End(s, run).clock);
    }
    if MustLock(l, s.clock) && s.clock <= End(s, run).clock { ExpiredStaysExpired(l, s.clock, End(s, run).clock); }
  }

  // ---------- acknowledged means durable ----------

  /** When a command acknowledgement is sent, its number is on disk exactly when the save after it was applied did not
      fail: `saveStatus` is Failed precisely between a failed write and the next successful one. */
  lemma AckIsDurableIffSaved(s: Station, answer: AckAnswer)
    requires Reachable(s) && Enabled(s, OnCommand(Ack(answer)))
    ensures s.disk.Some? && s.desk.recovery.value.pendingAck.value <= s.disk.value.applied <==> s.saveStatus == Saved
  {
    ReachableLog(s);
  }

  /** Every number that the server has seen acknowledged, or has pruned, is covered by the snapshot file. */
  ghost predicate Durable(s: Station) {
    forall k :: k in Settled(s) ==> s.disk.Some? && k <= s.disk.value.applied
  }

  /** An acknowledgement is sent although the write after its command failed. */
  ghost predicate Hasty(s: Station, a: Action) {
    a.OnCommand? && a.command.Ack? && s.saveStatus != Saved
  }

  /** One kind of step, and no other, acknowledges what is not on disk. */
  lemma StepDurability(s: Station, a: Action)
    requires LockInv(s) && LogInv(s) && Durable(s) && Enabled(s, a)
    ensures Durable(Do(s, a)) <==> !Hasty(s, a)
  {
    if a.OnCommand? {
      CommandDurability(s, a.command);
    } else {
      OthersSettleNothing(s, a);
      StepGoesForward(s, a);
    }
  }

  lemma CommandDurability(s: Station, k: CommandStep)
    requires LogInv(s) && Durable(s) && s.running && CommandEnabled(s, k)
    ensures Durable(DoCommand(s, k)) <==> !(k.Ack? && s.saveStatus != Saved)
  {
    if k.Ack? {
      assert s.desk.recovery.value.pendingAck.value in Settled(DoCommand(s, k));
    }
  }

  ghost predicate DurableThroughout(s: Station, run: seq<Action>)
    requires Run(s, run)
    decreases |run|
  {
    Durable(s) && (run != [] ==> DurableThroughout(Do(s, run[0]), run[1..]))
  }

  ghost predicate NeverHasty(s: Station, run: seq<Action>)
    requires Run(s, run)
    decreases |run|
  {
    run != [] ==> !Hasty(s, run[0]) && NeverHasty(Do(s, run[0]), run[1..])
  }

  /** Over a whole run: what is acknowledged is durable at every moment exactly when no acknowledgement follows a failed write
      of its number. */
  lemma {:induction false} RunDurability(s: Station, run: seq<Action>)
    requires LockInv(s) && LogInv(s) && Durable(s) && Run(s, run)
    ensures DurableThroughout(s, run) <==> NeverHasty(s, run)
    decreases |run|
  {
    if run != [] {
      StepKeepsLock(s, run[0]);
      StepKeepsLog(s, run[0]);
      StepDurability(s, run[0]);
      if !Hasty(s, run[0]) { RunDurability(Do(s, run[0]), run[1..]); }
    }
  }

  /** No write of the snapshot file fails in the run. */
  ghost predicate NoFailedSave(run: seq<Action>) {
    forall i :: 0 <= i < |run| ==>
      (run[i].Save? ==> run[i].written) && (run[i].EndLogin? ==> run[i].login.saved)
  }

  ghost predicate AckedIsDurable(s: Station) {
    s.saveStatus != Failed && Durable(s)
  }

  lemma OthersSettleNothing(s: Station, a: Action)
    requires Enabled(s, a) && !a.OnCommand?
    ensures Settled(Do(s, a)) == Settled(s)
    ensures (a.Save? ==> a.written) && (a.EndLogin? ==> a.login.saved) && s.saveStatus != Failed ==>
              Do(s, a).saveStatus != Failed
  {
  }

  lemma StepKeepsDurable(s: Station, a: Action)
    requires LockInv(s) && LogInv(s) && AckedIsDurable(s) && Enabled(s, a)
    requires (a.Save? ==> a.written) && (a.EndLogin? ==> a.login.saved)
    ensures AckedIsDurable(Do(s, a))
  {
    StepDurability(s, a);
    if !a.OnCommand? { OthersSettleNothing(s, a); }
  }

  lemma {:induction false} RunKeepsDurable(s: Station, run: seq<Action>)
    requires LockInv(s) && LogInv(s) && AckedIsDurable(s) && Run(s, run) && NoFailedSave(run)
    ensures AckedIsDurable(End(s, run))
    decreases |run|
  {
    if run != [] {
      StepKeepsLock(s, run[0]);
      StepKeepsLog(s, run[0]);
      StepKeepsDurable(s, run[0]);
      RunKeepsDurable(Do(s, run[0]), run[1..]);
    }
  }

  /** Acknowledged means durable: in every run without a failed snapshot write, whatever else fails or crashes, each number
      the server has seen acknowledged or has pruned is covered by the snapshot file. */
  lemma AcknowledgedIsDurable(id: Id, os: set<string>, run: seq<Action>)
    requires Run(Initial(id, os), run) && NoFailedSave(run)
    ensures Durable(End(Initial(id, os), run))
  {
    RunKeepsDurable(Initial(id, os), run);
  }
}
