/** Lock obligations are never lost: neither by a crash, nor by a lost response, nor by later commands. */
module StationObligations {
  import opened Options
  import opened Leases
  import opened StationProtocol
  import opened StationSafety
  import opened StationHistory

  function UpTo(d: Discharge): int { d.upTo }

  /** Each discharge has its reason: an acknowledgement the server received under that number, an unexpired start with a
      greater number, accepted under an ACTIVE lease for its session that covers it, or an ACTIVE lease for another session. */
  ghost predicate Justified(d: Discharge, sent: seq<LockAck>) {
    match d
    case ByLockAck(n) => exists i :: 0 <= i < |sent| && sent[i].sequence == n
    case ByStart(upTo, start, under) =>
      && start.kind == SessionStarted && !start.expired && upTo < start.sequence <= under.cursor
      && under.directive == ActiveDirective && under.sessionId == Some(start.session)
    case ByOtherSession(_, locked, under) =>
      under.directive == ActiveDirective && under.sessionId.Some? && under.sessionId.value != locked
  }

  ghost predicate Ended(j: Journal, k: int) {
    exists i :: 0 <= i < |j.discharges| && k <= UpTo(j.discharges[i])
  }

  ghost predicate Open(r: Recovery, k: int) { r.pendingLock.Some? && k <= r.pendingLock.value }

  /** Every unexpired lock command applied is still to be acknowledged, under its own number or a later one, or ended. */
  ghost predicate Kept(r: Recovery, j: Journal) {
    && (r.pendingLock.Some? <==> r.pendingLockSession.Some?)
    && forall i :: 0 <= i < |j.commands| && j.commands[i].Locks() ==> Open(r, i + 1) || Ended(j, i + 1)
  }

  ghost predicate AllJustified(j: Journal, sent: seq<LockAck>) {
    forall i :: 0 <= i < |j.discharges| ==> Justified(j.discharges[i], sent)
  }

  ghost predicate ObligationInv(s: Station) {
    && (s.desk.recovery.Some? ==> Kept(s.desk.recovery.value, s.journal))
    && (s.disk.Some? ==> Kept(s.disk.value, s.diskJournal))
    && AllJustified(s.journal, s.server.lockAcks)
    && AllJustified(s.diskJournal, s.server.lockAcks)
    && (s.intent.Sent? ==> exists i :: 0 <= i < |s.server.lockAcks| && s.server.lockAcks[i].sequence == s.intent.sequence)
  }

  lemma DischargedKeeps(r: Recovery, j: Journal, d: Discharge, q: Recovery)
    requires Kept(r, j) && r.pendingLock.Some? && UpTo(d) == r.pendingLock.value
    requires q.pendingLock.None? && q.pendingLockSession.None?
    ensures Kept(q, Discharged(j, d))
  {
    var k := Discharged(j, d);
    assert k.discharges[|j.discharges|] == d;
    forall i | 0 <= i < |k.commands| && k.commands[i].Locks() ensures Ended(k, i + 1) {
      if Ended(j, i + 1) {
        var n :| 0 <= n < |j.discharges| && i + 1 <= UpTo(j.discharges[n]);
        assert k.discharges[n] == j.discharges[n];
      }
    }
  }

  lemma JustifiedGrows(j: Journal, sent: seq<LockAck>, more: LockAck)
    requires AllJustified(j, sent)
    ensures AllJustified(j, sent + [more])
  {
    forall i | 0 <= i < |j.discharges| ensures Justified(j.discharges[i], sent + [more]) {
      if j.discharges[i].ByLockAck? {
        assert Justified(j.discharges[i], sent);
        var n :| 0 <= n < |sent| && sent[n].sequence == j.discharges[i].upTo;
        assert (sent + [more])[n] == sent[n];
      }
    }
  }

  lemma AppliedKeeps(r: Recovery, j: Journal, c: Command, q: Recovery)
    requires Kept(r, j) && c.sequence == |j.commands| + 1
    requires c.Locks() ==> r.pendingLock == Some(c.sequence)
    requires q.pendingLock == r.pendingLock && q.pendingLockSession == r.pendingLockSession
    ensures Kept(q, j.(commands := j.commands + [c]))
  {
    var k := j.(commands := j.commands + [c]);
    forall i | 0 <= i < |k.commands| && k.commands[i].Locks() ensures Open(q, i + 1) || Ended(k, i + 1) {
      if i < |j.commands| {
        assert k.commands[i] == j.commands[i];
        assert Ended(j, i + 1) ==> Ended(k, i + 1);
      }
    }
  }

  lemma CommandKeepsObligations(s: Station, k: CommandStep)
    requires LogInv(s) && ObligationInv(s) && s.running && CommandEnabled(s, k)
    ensures ObligationInv(DoCommand(s, k))
  {
    var r := s.desk.recovery.value;
    var q := DoCommand(s, k).desk.recovery.value;
    if k.StartCommand? && StartAccepted(r, k.c.session, k.c.sequence) && r.pendingLock.Some? {
      DischargedKeeps(r, s.journal, ByStart(r.pendingLock.value, k.c, r.lease), q);
    } else if k.CommandApplied? {
      AppliedKeeps(r, s.journal, k.c, q);
    }
  }

  lemma LockAckKeepsObligations(s: Station, k: LockAckStep)
    requires LockInv(s) && ObligationInv(s) && s.running && LockAckEnabled(s, k)
    ensures ObligationInv(DoLockAck(s, k))
  {
    var r := s.desk.recovery.value;
    var q := r.(pendingLock := None, pendingLockSession := None);
    match k
    case DropLock =>
      DischargedKeeps(r, s.journal, ByOtherSession(r.pendingLock.value, r.pendingLockSession.value, r.lease), q);
    case ClearLock => DischargedKeeps(r, s.journal, ByLockAck(s.intent.sequence), q);
    case SendLockAck =>
      var sent := LockAck(s.intent.sequence, s.intent.session, s.desk.enforcer.os == {});
      JustifiedGrows(s.journal, s.server.lockAcks, sent);
      JustifiedGrows(s.diskJournal, s.server.lockAcks, sent);
      assert (s.server.lockAcks + [sent])[|s.server.lockAcks|] == sent;
    case CheckLockAck =>
    case AbandonAck =>
  }

  /** The record still asks for the same lock acknowledgement. */
  ghost predicate SamePending(r: Option<Recovery>, q: Option<Recovery>) {
    q.Some? && r.Some? ==> q.value.pendingLock == r.value.pendingLock && q.value.pendingLockSession == r.value.pendingLockSession
  }

  /** What all other steps within a process leave alone: the journal, the server, the pending lock; the snapshot file is
      untouched or receives the record in memory. */
  ghost predicate Untouched(s: Station, t: Station) {
    && t.server == s.server && t.journal == s.journal && t.intent == s.intent
    && SamePending(s.desk.recovery, t.desk.recovery)
    && (s.desk.recovery.None? ==> s.journal.commands == [] &&
                                  (t.desk.recovery.Some? ==> t.desk.recovery.value.pendingLock.None? &&
                                                             t.desk.recovery.value.pendingLockSession.None?))
    && ((t.disk == s.disk && t.diskJournal == s.diskJournal) || (t.disk == t.desk.recovery && t.diskJournal == t.journal))
  }

  lemma OthersTouchNothing(s: Station, a: Action)
    requires LockInv(s) && LogInv(s) && Enabled(s, a) && !a.OnCommand? && !a.OnLockAck? && !a.CrashNow? && !a.BootNow?
    ensures Untouched(s, Do(s, a))
  {
    if Section(a) { SectionTouchesNothing(s, a); }
  }

  lemma SectionTouchesNothing(s: Station, a: Action)
    requires LockInv(s) && LogInv(s) && Enabled(s, a) && Section(a)
    ensures Untouched(s, Do(s, a))
  {
    SectionKeepsLock(s, a);
  }

  lemma UntouchedKeeps(s: Station, t: Station)
    requires ObligationInv(s) && Untouched(s, t)
    ensures ObligationInv(t)
  {
  }

  lemma StepKeepsObligations(s: Station, a: Action)
    requires LockInv(s) && LogInv(s) && ObligationInv(s) && Enabled(s, a)
    ensures ObligationInv(Do(s, a))
  {
    if a.OnCommand? {
      CommandKeepsObligations(s, a.command);
    } else if a.OnLockAck? {
      LockAckKeepsObligations(s, a.ack);
    } else if !a.CrashNow? && !a.BootNow? {
      OthersTouchNothing(s, a);
      UntouchedKeeps(s, Do(s, a));
    }
  }

  lemma {:induction false} RunKeepsObligations(s: Station, run: seq<Action>)
    requires LockInv(s) && LogInv(s) && ObligationInv(s) && Run(s, run)
    ensures ObligationInv(End(s, run))
    decreases |run|
  {
    if run != [] {
      StepKeepsLock(s, run[0]);
      StepKeepsLog(s, run[0]);
      StepKeepsObligations(s, run[0]);
      RunKeepsObligations(Do(s, run[0]), run[1..]);
    }
  }

  /** Lock obligations are never lost: in every reachable state, for each unexpired SESSION_TERMINATED or FORCE_LOCK numbered k
      among the commands applied, in memory and likewise in the snapshot file, PendingLockSequence is at least k, or the
      obligation was ended by a lock acknowledgement numbered k or more that the server received, by an accepted start
      with a greater number, or by an ACTIVE lease for another session. */
  lemma LockObligationsKept(s: Station)
    requires Reachable(s)
    ensures s.desk.recovery.Some? ==> Kept(s.desk.recovery.value, s.journal)
    ensures s.disk.Some? ==> Kept(s.disk.value, s.diskJournal)
    ensures AllJustified(s.journal, s.server.lockAcks) && AllJustified(s.diskJournal, s.server.lockAcks)
  {
    var id, os, run :| Run(Initial(id, os), run) && End(Initial(id, os), run) == s;
    RunKeepsObligations(Initial(id, os), run);
  }
}
