/** Signed session leases, the durable recovery record and the pure decisions over them
    (SessionLeaseRuntime.cs). Signature checking is not part of the model: a lease that
    reaches these functions has been decoded from a verified envelope. */
module Leases {
  import opened Options

  type Id = int
  type Time = int

  datatype Directive = ActiveDirective | LockDirective | OtherDirective

  /** The fields of SessionLease that any decision of the client reads.
      `timeBalance` stands for BillingMode == "TIME_BALANCE". */
  datatype Lease = Lease(
    leaseId: Id, stationId: Id, sessionId: Option<Id>, customerId: Option<Id>, sessionEndsAt: Option<Time>,
    configurationVersion: int, issuedAt: Time, expiresAt: Time, graceEndsAt: Time, cursor: int,
    directive: Directive, timeBalance: bool, startedAt: Option<Time>, balanceSeconds: Option<int>,
    assignmentId: Option<Id>, assignmentExpiresAt: Option<Time>)

  datatype CommandType = SessionStarted | SessionExtended | SessionTerminated | ForceLock

  /** A machine command that passed MachineCommandValidation: positive number, known type, this station. */
  datatype Command = Command(sequence: int, kind: CommandType, session: Id, expired: bool)
  {
    /** Commands whose side effect is a physical lock obligation. */
    predicate Locks() { !expired && (kind == SessionTerminated || kind == ForceLock) }
  }

  /** ClientRecoveryState. The signed envelope is represented by the lease it verifies to. */
  datatype Recovery = Recovery(
    lease: Lease, applied: int, floor: Time, pendingLock: Option<int>, pendingLockSession: Option<Id>,
    locallyLocked: bool, blocked: Option<Id>, pendingAck: Option<int>)

  /** The field checks of SessionLeaseVerifier.Verify. */
  predicate FieldsAccepted(l: Lease, station: Id) {
    && l.stationId == station
    && (l.directive == ActiveDirective ==>
          l.timeBalance && l.customerId.Some? && l.startedAt.Some? && l.balanceSeconds.Some? &&
          0 <= l.balanceSeconds.value && l.graceEndsAt == l.expiresAt)
    && (l.assignmentId.Some? ==>
          l.directive == LockDirective && l.sessionId.None? && l.assignmentExpiresAt.Some? &&
          l.issuedAt < l.assignmentExpiresAt.value)
    && l.issuedAt <= l.expiresAt <= l.graceEndsAt
    && l.directive != OtherDirective
    && (l.directive == ActiveDirective ==> l.sessionId.Some? && l.sessionEndsAt.Some?)
    && (l.sessionEndsAt.Some? ==> l.graceEndsAt <= l.sessionEndsAt.value)
  }

  /** LeaseDeadlinePolicy.MustLock. */
  predicate MustLock(l: Lease, now: Time) {
    || l.directive != ActiveDirective
    || !l.timeBalance
    || l.sessionId.None?
    || l.graceEndsAt <= now
    || (l.sessionEndsAt.Some? && l.sessionEndsAt.value <= now)
  }

  /** What a lease that need not lock grants: a running session whose grace interval is over
      neither at `now` nor later than the session's own end. */
  ghost predicate Entitled(l: Lease, now: Time) {
    && l.directive == ActiveDirective
    && l.sessionId.Some?
    && l.sessionEndsAt.Some?
    && now < l.graceEndsAt == l.expiresAt <= l.sessionEndsAt.value
  }

  /** For every lease that passes the field checks, "need not lock" and "entitled" are the same thing. */
  lemma UnlockedMeansEntitled(l: Lease, station: Id, now: Time)
    requires FieldsAccepted(l, station)
    ensures !MustLock(l, now) <==> Entitled(l, now)
  {
  }

  /** The deadline policy for any lease at all, also one that fails the field checks. */
  lemma UnlockedExactly(l: Lease, now: Time)
    ensures !MustLock(l, now) <==>
              l.directive == ActiveDirective && l.timeBalance && l.sessionId.Some? && now < l.graceEndsAt &&
              (l.sessionEndsAt.Some? ==> now < l.sessionEndsAt.value)
  {
  }

  /** LeaseRecoveryPolicy.Validate: server state must not move behind the locally confirmed history. */
  predicate FollowsHistory(previous: Option<Recovery>, incoming: Lease) {
    previous.Some? ==>
      && previous.value.applied <= incoming.cursor
      && previous.value.lease.cursor <= incoming.cursor
      && previous.value.lease.issuedAt <= incoming.issuedAt
  }

  datatype SequenceDecision = Duplicate | Apply | Gap

  /** CommandSequenceReducer.Decide. */
  function Decide(applied: int, incoming: int): SequenceDecision {
    if incoming <= applied then Duplicate else if incoming == applied + 1 then Apply else Gap
  }

  /** The guard of ClientRecoveryState.AcceptStarted. */
  predicate StartAccepted(r: Recovery, session: Id, sequence: int) {
    && r.lease.directive == ActiveDirective
    && r.lease.sessionId == Some(session)
    && 0 < sequence <= r.lease.cursor
    && (r.pendingLock.None? || r.pendingLock.value < sequence)
  }

  function AcceptStarted(r: Recovery, session: Id, sequence: int): Recovery {
    if StartAccepted(r, session, sequence) then
      r.(blocked := None, pendingLock := None, pendingLockSession := None)
    else r
  }
}
