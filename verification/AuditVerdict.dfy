/**
  The audit trail of a permit (internal/router/router.go): what verification, revocation, runtime
  events and completion write into the record of a request, in any order and interleaving.
 */
module AuditVerdict {
  import opened Wrappers
  import opened Permits
  import opened AuditStore
  import opened StoreRuns
  import opened Verifier
  import opened Observer

  // ---------------------------------------------------------------- verdicts and updates

  function PermitVerdict(outcome: Outcome): Verdict {
    match outcome
    case Verified => PermitVerified
    case ActionMismatch | WrongPrincipal | WrongAgent | WrongWorkload | WrongDelegation | WrongTool | WrongCapability
       | WrongResource | WrongOperation | WrongProfile | WrongAudience | WrongExecutionBinding => PermitActionMismatch
    case PermitExpired => PermitExpiredVerdict
    case ReplayedPermit => PermitReplay
    case RevokedPermit => PermitRevokedVerdict
    case InvalidSignature => PermitInvalidSignature
    case WrongPermitClass => PermitClassMismatch
    case WrongExecutor => PermitWrongExecutor
    case UnsatisfiedObligation => ObligationUnsatisfied
    case _ => PermitRejected
  }

  /** Verdicts whose text starts with PERMIT_. */
  predicate NamesPermit(v: Verdict) {
    v in {PermitVerified, PermitActionMismatch, PermitExpiredVerdict, PermitReplay, PermitRevokedVerdict,
          PermitInvalidSignature, PermitClassMismatch, PermitWrongExecutor, PermitRejected}
  }

  function Priority(outcome: Option<Outcome>): nat {
    match outcome
    case None => 0
    case Some(o) => if o == Verified then 1 else 2
  }

  function SetEnvelope(e: Option<Envelope>, state: Option<State>): Option<Envelope> {
    match e case None => None case Some(value) => Some(value.(state := state))
  }

  /** auditPermitVerification: an outcome is replaced only by one of at least its priority. */
  function VerificationUpdate(r: AuditRecord, permitID: string, state: Option<State>, outcome: Outcome): AuditRecord {
    var existing := if r.receipt.Some? then r.receipt.value.outcome else None;
    var wins := Priority(Some(outcome)) >= Priority(existing);
    var receipt := match r.receipt
                   case None => None
                   case Some(receipt) =>
                     Some(receipt.(permitState := state, outcome := if wins then Some(outcome) else receipt.outcome));
    var names := r.envelope.Some? && r.envelope.value.permitID == permitID;
    r.(envelope := if names then SetEnvelope(r.envelope, state) else r.envelope,
       receipt := receipt,
       verdict := if wins then PermitVerdict(outcome) else r.verdict)
  }

  /** recordPermitRevocation. */
  function RevocationUpdate(r: AuditRecord, state: Option<State>): AuditRecord {
    r.(envelope := SetEnvelope(r.envelope, state),
       receipt := match r.receipt
                  case None => None
                  case Some(receipt) => Some(receipt.(permitState := state, outcome := Some(RevokedPermit))),
       verdict := PermitRevokedVerdict)
  }

  /** What IngestRuntimeEvent writes for a permit it tracks. */
  function RuntimeEventUpdate(r: AuditRecord, accepted: bool, within: bool): AuditRecord {
    if !accepted then r.(verdict := EventRejected)
    else if !within then r.(verdict := BoundaryViolation)
    else r
  }

  /** auditRejectedEvent. */
  function RejectedEventUpdate(r: AuditRecord): AuditRecord {
    if r.verdict == BoundaryViolation then r else r.(verdict := EventRejected)
  }

  datatype Source = GatewayEnforced | SimulatedDemo | SelfReported

  datatype Status = Completed | Failed | Terminated

  datatype Boundary = NoBoundary | UnsatisfiedBoundary | RedirectBoundary

  datatype Completion = Completion(
    requestID: string,
    permitID: string,
    status: Status,
    boundary: Boundary,
    attempted: bool,
    completedAt: Option<Time>)

  predicate Trusted(source: Source) { source != SelfReported }

  /** Both ids are short labels; boundary outcomes and upstream attempts are reserved for trusted adapters. */
  predicate AcceptsCompletion(c: Completion, source: Source) {
    && SafeLabel(c.requestID) && SafeLabel(c.permitID)
    && (Trusted(source) || (c.boundary == NoBoundary && !c.attempted))
  }

  function CompletedVerdict(r: AuditRecord, c: Completion, source: Source): Verdict {
    match c.boundary
    case UnsatisfiedBoundary => ObligationUnsatisfied
    case RedirectBoundary => RedirectBlocked
    case NoBoundary =>
      if r.verdict == BoundaryViolation || r.verdict == EventRejected
        || (NamesPermit(r.verdict) && r.verdict != PermitVerified)
      then r.verdict
      else match c.status
        case Failed => ExecutionFailed
        case Terminated => ExecutionTerminated
        case Completed =>
          if r.receipt.Some? && r.receipt.value.outcome == Some(Verified) && source == GatewayEnforced
            then ExecutedWithValidPermit
          else if r.receipt.Some? && r.receipt.value.outcome == Some(Verified) && source == SimulatedDemo
            then SimulatedWithValidPermit
          else CompletedWithoutVerification
  }

  function StatusText(c: Completion): string {
    match c.boundary
    case UnsatisfiedBoundary => "UNSATISFIED_OBLIGATION"
    case RedirectBoundary => "UPSTREAM_REDIRECT_BLOCKED"
    case NoBoundary =>
      match c.status case Completed => "completed" case Failed => "failed" case Terminated => "terminated"
  }

  /** The update completeExecution makes. */
  function CompletionUpdate(r: AuditRecord, c: Completion, source: Source, expired: bool,
                            state: Option<State>): AuditRecord {
    if expired then
      r.(envelope := SetEnvelope(r.envelope, state),
         receipt := match r.receipt
                    case None => None
                    case Some(receipt) => Some(receipt.(permitState := state, outcome := Some(PermitExpired))),
         verdict := PermitExpiredVerdict)
    else
      r.(envelope := SetEnvelope(r.envelope, state),
         receipt := match r.receipt
                    case None => None
                    case Some(receipt) =>
                      Some(receipt.(permitState := state, attempted := c.attempted, execution := StatusText(c))),
         verdict := CompletedVerdict(r, c, source))
  }

  // ---------------------------------------------------------------- what an update writes

  /** The verdict that reports an outcome of verification. */
  predicate Reports(outcome: Outcome, v: Verdict) {
    match v
    case PermitVerified => outcome == Verified
    case PermitActionMismatch =>
      outcome in {ActionMismatch, WrongPrincipal, WrongAgent, WrongWorkload, WrongDelegation, WrongTool,
                  WrongCapability, WrongResource, WrongOperation, WrongProfile, WrongAudience, WrongExecutionBinding}
    case PermitExpiredVerdict => outcome == PermitExpired
    case PermitReplay => outcome == ReplayedPermit
    case PermitRevokedVerdict => outcome == RevokedPermit
    case PermitInvalidSignature => outcome == InvalidSignature
    case PermitClassMismatch => outcome == WrongPermitClass
    case PermitWrongExecutor => outcome == WrongExecutor
    case ObligationUnsatisfied => outcome == UnsatisfiedObligation
    case PermitRejected =>
      outcome in {InvalidIssuer, UnknownPermitID, InvalidPermit, InvalidActionOutcome, NotYetValid, ValidNotConsumed}
    case _ => false
  }

  lemma VerdictExact(outcome: Outcome, v: Verdict)
    ensures PermitVerdict(outcome) == v <==> Reports(outcome, v)
  {
  }

  /** The state of the envelope's and the receipt's permit is written, whatever the update decides otherwise. */
  predicate WritesState(r: AuditRecord, u: AuditRecord, state: Option<State>) {
    && (u.envelope.Some? <==> r.envelope.Some?)
    && (r.envelope.Some? ==> u.envelope.value == Envelope(r.envelope.value.permitID, state))
    && (u.receipt.Some? <==> r.receipt.Some?)
    && (r.receipt.Some? ==>
          u.receipt.value.permitID == r.receipt.value.permitID && u.receipt.value.permitState == state)
  }

  /** A verification is written over everything but a success over a failure; the permit's state is written in any
      case, in the envelope if that is the permit's own. */
  lemma VerificationExact(r: AuditRecord, permitID: string, state: Option<State>, outcome: Outcome)
    ensures var u := VerificationUpdate(r, permitID, state, outcome);
            var kept := outcome == Verified && r.receipt.Some?
                        && r.receipt.value.outcome.Some? && r.receipt.value.outcome.value != Verified;
            && u.requestID == r.requestID
            && (if kept then u.verdict == r.verdict else Reports(outcome, u.verdict))
            && (if r.envelope.Some? && r.envelope.value.permitID == permitID
                then u.envelope == Some(Envelope(permitID, state)) else u.envelope == r.envelope)
            && (if r.receipt.None? then u.receipt.None?
                else u.receipt == Some(r.receipt.value.(
                                         permitState := state,
                                         outcome := if kept then r.receipt.value.outcome else Some(outcome))))
  {
    VerdictExact(outcome, PermitVerdict(outcome));
  }

  /** A verdict that a completion does not touch: the observer's two, and every failed verification's. */
  predicate Settled(v: Verdict) {
    v in {BoundaryViolation, EventRejected, PermitActionMismatch, PermitExpiredVerdict, PermitReplay,
          PermitRevokedVerdict, PermitInvalidSignature, PermitClassMismatch, PermitWrongExecutor, PermitRejected}
  }

  predicate SaysVerified(r: AuditRecord) { r.receipt.Some? && r.receipt.value.outcome == Some(Verified) }

  /** The verdict of a record once an execution in time is completed. */
  predicate Concludes(r: AuditRecord, c: Completion, source: Source, v: Verdict) {
    if c.boundary == UnsatisfiedBoundary then v == ObligationUnsatisfied
    else if c.boundary == RedirectBoundary then v == RedirectBlocked
    else if Settled(r.verdict) then v == r.verdict
    else
      match v
      case ExecutedWithValidPermit => c.status == Completed && SaysVerified(r) && source == GatewayEnforced
      case SimulatedWithValidPermit => c.status == Completed && SaysVerified(r) && source == SimulatedDemo
      case CompletedWithoutVerification => c.status == Completed && (SaysVerified(r) ==> source == SelfReported)
      case ExecutionFailed => c.status == Failed
      case ExecutionTerminated => c.status == Terminated
      case _ => false
  }

  lemma SettledExact(v: Verdict)
    ensures Settled(v) <==> v == BoundaryViolation || v == EventRejected || (NamesPermit(v) && v != PermitVerified)
  {
  }

  lemma ConcludesExact(r: AuditRecord, c: Completion, source: Source, v: Verdict)
    ensures CompletedVerdict(r, c, source) == v <==> Concludes(r, c, source, v)
  {
    hide Settled, NamesPermit;
    SettledExact(r.verdict);
  }

  /** A completion past the expiry says so in verdict and outcome; one in time concludes the record and writes what the
      adapter reports.  The permit's state is written in any case. */
  lemma CompletionExact(r: AuditRecord, c: Completion, source: Source, expired: bool, state: Option<State>, v: Verdict)
    ensures var u := CompletionUpdate(r, c, source, expired, state);
            && u.requestID == r.requestID && WritesState(r, u, state)
            && (u.verdict == v <==> if expired then v == PermitExpiredVerdict else Concludes(r, c, source, v))
            && (r.receipt.Some? ==>
                  var before, next := r.receipt.value, u.receipt.value;
                  if expired then
                    && next.outcome == Some(PermitExpired)
                    && next.attempted == before.attempted && next.execution == before.execution
                  else
                    && next.outcome == before.outcome && next.attempted == c.attempted
                    && next.execution == (if c.boundary == UnsatisfiedBoundary then "UNSATISFIED_OBLIGATION"
                                        else if c.boundary == RedirectBoundary then "UPSTREAM_REDIRECT_BLOCKED"
                                        else if c.status == Completed then "completed"
                                        else if c.status == Failed then "failed" else "terminated"))
  {
    hide CompletedVerdict, Concludes;
    ConcludesExact(r, c, source, v);
  }

  /** A revocation is written over everything; an event that is not bound to its permit is rejected, unless an earlier
      one crossed the boundary; one outside its envelope crosses it, and one inside changes no verdict. */
  lemma OtherUpdatesExact(r: AuditRecord, state: Option<State>, accepted: bool, within: bool)
    ensures var u := RevocationUpdate(r, state);
            && u.requestID == r.requestID && WritesState(r, u, state) && u.verdict == PermitRevokedVerdict
            && (r.receipt.Some? ==> u.receipt == Some(r.receipt.value.(permitState := state,
                                                                      outcome := Some(RevokedPermit))))
    ensures RuntimeEventUpdate(r, accepted, within) ==
            if accepted && within then r
            else AuditRecord(r.requestID, r.envelope, r.receipt, if accepted then BoundaryViolation else EventRejected)
    ensures RejectedEventUpdate(r) ==
            AuditRecord(r.requestID, r.envelope, r.receipt,
                        if r.verdict == BoundaryViolation then BoundaryViolation else EventRejected)
  {
  }

  /** A new record names its permit, outstanding and not yet verified, exactly when the decision issued one; the record
      of an attempt without authentic claims names none and reports the outcome. */
  lemma NewRecordsExact(requestID: string, permitID: string, decision: Verdict, outcome: Outcome)
    ensures var r := DecisionRecord(requestID, permitID, decision);
            && r.requestID == requestID && r.verdict == decision
            && r.envelope == (if permitID != "" then Some(Envelope(permitID, Some(Issued))) else None)
            && r.receipt.Some? && r.receipt.value.permitID == permitID && r.receipt.value.outcome.None?
            && (r.receipt.value.permitState == Some(Issued) <==> permitID != "")
            && !r.receipt.value.attempted && r.receipt.value.execution == ""
    ensures var r := FailureRecord(requestID, outcome);
            && r.requestID == requestID && r.envelope.None? && Reports(outcome, r.verdict)
            && r.receipt.Some? && r.receipt.value.permitID == "" && r.receipt.value.outcome == Some(outcome)
  {
    VerdictExact(outcome, PermitVerdict(outcome));
  }

  // ---------------------------------------------------------------- the router's shared state

  datatype Completing =
    | CheckedPermit(c: Completion, source: Source, receivedAt: Time)
    | TookPermit(c: Completion, source: Source, receivedAt: Time, expiresAt: Time)
    | ReadyToRecord(c: Completion, source: Source, expired: bool, state: Option<State>)

  /** The permit store, the permits the router tracks, the audit store, and the completions under way. */
  datatype Trail = Trail(
    store: Permits.Store,
    permits: map<string, AuthorizationEnvelope>,
    audit: AuditState,
    completing: map<nat, Completing>)

  datatype TrailStep =
    | StoreDoes(op: Op)
    | Publish(permit: AuthorizationEnvelope)
    | Unpublish(permitID: string)
    | AppendDecision(requestID: string, permitID: string, decision: Verdict, writes: bool)
    | AppendFailure(attemptID: string, outcome: Outcome, writes: bool)
    | RecordVerification(requestID: string, permitID: string, state: Option<State>, outcome: Outcome, writes: bool)
    | RecordRevocation(requestID: string, state: Option<State>, writes: bool)
    | RecordRuntimeEvent(requestID: string, accepted: bool, within: bool, writes: bool)
    | RecordRejectedEvent(requestID: string, writes: bool)
    | CheckPermit(t: nat, c: Completion, source: Source, now: Time)
    | TakePermit(t: nat)
    | ReadState(t: nat)
    | RecordCompletion(t: nat, writes: bool)

  predicate IsDecision(v: Verdict) { v in {BlockedBeforeExecution, ApprovalRequired, AuthorizedVerdict} }

  function DecisionRecord(requestID: string, permitID: string, decision: Verdict): AuditRecord {
    AuditRecord(requestID,
                if permitID == "" then None else Some(Envelope(permitID, Some(Issued))),
                Some(Receipt(permitID, if permitID == "" then None else Some(Issued), None, false, "")), decision)
  }

  function FailureRecord(attemptID: string, outcome: Outcome): AuditRecord {
    AuditRecord(attemptID, None, Some(Receipt("", None, Some(outcome), false, "")), PermitVerdict(outcome))
  }

  function CompletionMutator(c: Completion, source: Source, expired: bool, state: Option<State>): Mutator {
    r => Some(CompletionUpdate(r, c, source, expired, state))
  }

  /** The audit operation of a step, if it has one. */
  function AuditOpOf(s: Trail, step: TrailStep): Option<AuditOp> {
    match step
    case AppendDecision(requestID, permitID, decision, writes) =>
      if IsDecision(decision) then Some(Append(DecisionRecord(requestID, permitID, decision), writes)) else None
    case AppendFailure(attemptID, outcome, writes) => Some(Append(FailureRecord(attemptID, outcome), writes))
    case RecordVerification(requestID, permitID, state, outcome, writes) =>
      Some(Mutate(requestID, r => Some(VerificationUpdate(r, permitID, state, outcome)), writes))
    case RecordRevocation(requestID, state, writes) =>
      Some(Mutate(requestID, r => Some(RevocationUpdate(r, state)), writes))
    case RecordRuntimeEvent(requestID, accepted, within, writes) =>
      Some(Mutate(requestID, r => Some(RuntimeEventUpdate(r, accepted, within)), writes))
    case RecordRejectedEvent(requestID, writes) => Some(Mutate(requestID, r => Some(RejectedEventUpdate(r)), writes))
    case RecordCompletion(t, writes) =>
      if t in s.completing && s.completing[t].ReadyToRecord? then
        var ReadyToRecord(c, source, expired, state) := s.completing[t];
        Some(Mutate(c.requestID, CompletionMutator(c, source, expired, state), writes))
      else None
    case _ => None
  }

  function IsExpired(c: Completion, receivedAt: Time, expiresAt: Time): bool {
    expiresAt <= receivedAt || (c.completedAt.Some? && expiresAt <= c.completedAt.value)
  }

  function Continue(s: Trail, t: nat, next: Completing): Trail { s.(completing := s.completing[t := next]) }

  function Drop(s: Trail, t: nat): Trail { s.(completing := s.completing - {t}) }

  function CheckPermitStep(s: Trail, t: nat, c: Completion, source: Source, now: Time): Trail {
    if t in s.completing || !AcceptsCompletion(c, source) then s
    else if !Trusted(source) then Continue(s, t, CheckedPermit(c, source, now))
    else
      var (store, response) := Apply(s.store, Op.Get(c.permitID, now));
      var read := s.(store := store);
      if response.Found? && response.record.state == Consumed then Continue(read, t, CheckedPermit(c, source, now))
        else read
  }

  function TakePermitStep(s: Trail, t: nat): Trail {
    if t !in s.completing || !s.completing[t].CheckedPermit? then s
    else
      var CheckedPermit(c, source, receivedAt) := s.completing[t];
      if c.permitID !in s.permits || s.permits[c.permitID].requestID != c.requestID then Drop(s, t)
      else
        var took := TookPermit(c, source, receivedAt, s.permits[c.permitID].expiresAt);
        Continue(s, t, took).(permits := s.permits - {c.permitID})
  }

  function ReadStateStep(s: Trail, t: nat): Trail {
    if t !in s.completing || !s.completing[t].TookPermit? then s
    else
      var TookPermit(c, source, receivedAt, expiresAt) := s.completing[t];
      var (store, response) := Apply(s.store, Op.Get(c.permitID, receivedAt));
      Continue(s.(store := store), t, ReadyToRecord(c, source, IsExpired(c, receivedAt, expiresAt),
                                                    if response.Found? then Some(response.record.state) else None))
  }

  function NextTrail(s: Trail, step: TrailStep): Trail {
    match step
    case StoreDoes(op) => s.(store := Apply(s.store, op).0)
    case Publish(permit) => s.(permits := s.permits[permit.permitID := permit])
    case Unpublish(permitID) => s.(permits := s.permits - {permitID})
    case CheckPermit(t, c, source, now) => CheckPermitStep(s, t, c, source, now)
    case TakePermit(t) => TakePermitStep(s, t)
    case ReadState(t) => ReadStateStep(s, t)
    case RecordCompletion(t, _) => Drop(AuditStep(s, step), t)
    case _ => AuditStep(s, step)
  }

  function AuditStep(s: Trail, step: TrailStep): Trail {
    match AuditOpOf(s, step)
    case None => s
    case Some(op) => s.(audit := ApplyAudit(s.audit, op).0)
  }

  // ---------------------------------------------------------------- when a completion counts

  /** Both ids are labels, only an adapter reports boundaries and attempts, an adapter's permit is consumed, and the
      permit is still tracked for this request. */
  predicate CompletionCounts(s: Trail, c: Completion, source: Source, now: Time) {
    && SafeLabel(c.requestID) && SafeLabel(c.permitID)
    && (source == SelfReported ==> c.boundary == NoBoundary && !c.attempted)
    && (source != SelfReported ==> c.permitID in s.store.records
                                   && AsOf(s.store.records[c.permitID], now).state == Consumed)
    && c.permitID in s.permits && s.permits[c.permitID].requestID == c.requestID
  }

  /** Run without interruption, a completion stops the tracking of its permit and writes its record exactly when it
      counts.  It is late when its permit has expired at the reading or at the time it reports. */
  lemma UninterruptedCompletion(s: Trail, c: Completion, source: Source, now: Time, writes: bool)
    requires s.completing == map[]
    ensures var t := NextTrail(ReadStateStep(TakePermitStep(CheckPermitStep(s, 0, c, source, now), 0), 0),
                               RecordCompletion(0, writes));
            if CompletionCounts(s, c, source, now) then
              var expiry := s.permits[c.permitID].expiresAt;
              var late := now >= expiry || (c.completedAt.Some? && c.completedAt.value >= expiry);
              var state := if c.permitID in s.store.records then Some(AsOf(s.store.records[c.permitID], now).state)
                           else None;
              && t.permits == s.permits - {c.permitID}
              && t.audit ==
                 ApplyAudit(s.audit, Mutate(c.requestID, CompletionMutator(c, source, late, state), writes)).0
            else t.permits == s.permits && t.audit == s.audit
  {
    hide ApplyAudit, Apply, CompletionMutator, SafeLabel, AsOf, ReadStateStep, CheckPermitStep, TakePermitStep,
      CompletionCounts;
    CheckAndTake(s, c, source, now);
    var took := TakePermitStep(CheckPermitStep(s, 0, c, source, now), 0);
    if CompletionCounts(s, c, source, now) {
      ReadStateIs(took, c, source, now);
    } else {
      ReadsNothing(took);
    }
  }

  /** The first two steps of a completion: its permit is taken exactly when it counts. */
  lemma CheckAndTake(s: Trail, c: Completion, source: Source, now: Time)
    requires s.completing == map[]
    ensures var t := TakePermitStep(CheckPermitStep(s, 0, c, source, now), 0);
            && t.audit == s.audit
            && (c.permitID in t.store.records <==> c.permitID in s.store.records)
            && (c.permitID in s.store.records ==>
                  AsOf(t.store.records[c.permitID], now) == AsOf(s.store.records[c.permitID], now))
            && if CompletionCounts(s, c, source, now) then
                 && c.permitID in s.permits && t.permits == s.permits - {c.permitID}
                 && t.completing == map[0 := TookPermit(c, source, now, s.permits[c.permitID].expiresAt)]
               else t.permits == s.permits && t.completing == map[]
  {
    hide Apply, SafeLabel, AsOf;
    ReadExact(s.store, c.permitID, now);
    ReadTwice(s.store, c.permitID, now);
  }

  lemma ReadsNothing(s: Trail)
    requires 0 !in s.completing
    ensures ReadStateStep(s, 0) == s
  {
  }

  /** A second reading at the same time finds the same record. */
  lemma ReadTwice(s: Permits.Store, id: string, now: Time)
    ensures var t := Apply(s, Op.Get(id, now)).0;
            && (id in t.records <==> id in s.records)
            && (id in s.records ==> AsOf(t.records[id], now) == AsOf(s.records[id], now))
  {
    hide Apply;
    ReadExact(s, id, now);
  }

  lemma ReadStateIs(s: Trail, c: Completion, source: Source, now: Time)
    requires 0 in s.completing && s.completing[0].TookPermit? && s.completing[0].c == c
    requires s.completing[0].source == source && s.completing[0].receivedAt == now
    ensures var t := ReadStateStep(s, 0);
            var expiry := s.completing[0].expiresAt;
            && t.permits == s.permits && t.audit == s.audit && 0 in t.completing
            && t.completing[0] ==
               ReadyToRecord(c, source, now >= expiry || (c.completedAt.Some? && c.completedAt.value >= expiry),
                             if c.permitID in s.store.records then Some(AsOf(s.store.records[c.permitID], now).state)
                             else None)
  {
    hide Apply, AsOf;
    ReadExact(s.store, c.permitID, now);
  }

  // ---------------------------------------------------------------- runtime events

  /** An event without a time stamp gets the router's reading. */
  function Stamped(e: RuntimeEvent, now: Time): RuntimeEvent {
    if e.timestamp == ZERO_TIME then e.(timestamp := now) else e
  }

  /** auditRejectedEvent: nothing is written under an id that is no label. */
  function Rejected(s: Trail, requestID: string, writes: bool): Trail {
    if SafeLabel(requestID) then NextTrail(s, RecordRejectedEvent(requestID, writes)) else s
  }

  /** A permit is no longer tracked, and revoked if it was still outstanding. */
  function Ended(s: Trail, permitID: string, now: Time): Trail {
    NextTrail(NextTrail(s, Unpublish(permitID)), StoreDoes(Op.Revoke(permitID, now)))
  }

  /** What a runtime event leaves behind, in steps that other threads may come between. */
  function Ingested(s: Trail, e: RuntimeEvent, now: Time, writes: bool): Trail {
    if !ValidMetadata(e) || e.permitID !in s.permits then Rejected(s, e.requestID, writes)
    else
      var permit := s.permits[e.permitID];
      var r := Evaluated(permit, e, now);
      var ended := if r.terminated then Ended(s, permit.permitID, now) else s;
      NextTrail(ended, RecordRuntimeEvent(permit.requestID, r.accepted, r.within, writes))
  }

  /** The router files each permit it tracks under the permit's own id. */
  predicate FiledByID(s: Trail) { forall id | id in s.permits :: s.permits[id].permitID == id }

  lemma EndedIsOver(s: Trail, permitID: string, now: Time)
    ensures var t := Ended(s, permitID, now);
            && permitID !in t.permits && t.audit == s.audit
            && (permitID in t.store.records ==> t.store.records[permitID].state != Issued)
  {
  }

  /** The verdict that an event leaves on the record of the request it is filed under. */
  function EventVerdict(s: Trail, e: RuntimeEvent, now: Time, v: Verdict): Verdict {
    if !ValidMetadata(e) || e.permitID !in s.permits
    then (if v == BoundaryViolation then BoundaryViolation else EventRejected)
    else
      var r := Evaluated(s.permits[e.permitID], e, now);
      if !r.accepted then EventRejected else if !r.within then BoundaryViolation else v
  }

  /** What one written mutation does to the record found under its id. */
  lemma MutationWrites(s: AuditState, id: string, f: Mutator)
    requires Lookup(s.records, id).Some? && id != ""
    requires f(Lookup(s.records, id).value).Some? && f(Lookup(s.records, id).value).value.requestID == id
    ensures Lookup(ApplyAudit(s, Mutate(id, f, true)).0.records, id) == f(Lookup(s.records, id).value)
  {
    hide LastIndex;
    LookupID(s.records, id);
    ReplaceLookup(s.records, LastIndex(s.records, id), f(Lookup(s.records, id).value).value, id);
  }

  /** A written update is what the record found under the request's id becomes. */
  lemma UpdatesAreWritten(s: Trail, id: string, permitID: string, state: Option<State>, outcome: Outcome,
                          accepted: bool, within: bool)
    requires Lookup(s.audit.records, id).Some? && id != ""
    ensures var r := Lookup(s.audit.records, id).value;
            && Lookup(NextTrail(s, RecordVerification(id, permitID, state, outcome, true)).audit.records, id) ==
               Some(VerificationUpdate(r, permitID, state, outcome))
            && Lookup(NextTrail(s, RecordRevocation(id, state, true)).audit.records, id) ==
               Some(RevocationUpdate(r, state))
            && Lookup(NextTrail(s, RecordRuntimeEvent(id, accepted, within, true)).audit.records, id) ==
               Some(RuntimeEventUpdate(r, accepted, within))
            && Lookup(NextTrail(s, RecordRejectedEvent(id, true)).audit.records, id) == Some(RejectedEventUpdate(r))
  {
    hide Lookup, ApplyAudit;
    LookupID(s.audit.records, id);
    MutationWrites(s.audit, id, AuditOpOf(s, RecordVerification(id, permitID, state, outcome, true)).value.mutate);
    MutationWrites(s.audit, id, AuditOpOf(s, RecordRevocation(id, state, true)).value.mutate);
    MutationWrites(s.audit, id, AuditOpOf(s, RecordRuntimeEvent(id, accepted, within, true)).value.mutate);
    MutationWrites(s.audit, id, AuditOpOf(s, RecordRejectedEvent(id, true)).value.mutate);
  }

  /** A decision, one of three, and a failed attempt append their record to the log and to the window. */
  lemma RecordsAreAppended(s: Trail, id: string, permitID: string, decision: Verdict, outcome: Outcome)
    requires decision in {BlockedBeforeExecution, ApprovalRequired, AuthorizedVerdict}
    ensures var t := NextTrail(s, AppendDecision(id, permitID, decision, true)).audit;
            && t.log == s.audit.log + [DecisionRecord(id, permitID, decision)]
            && t.records != [] && t.records[|t.records| - 1] == DecisionRecord(id, permitID, decision)
    ensures var t := NextTrail(s, AppendFailure(id, outcome, true)).audit;
            && t.log == s.audit.log + [FailureRecord(id, outcome)]
            && t.records != [] && t.records[|t.records| - 1] == FailureRecord(id, outcome)
  {
    hide DecisionRecord, FailureRecord, ApplyAudit;
    AppendWrites(s.audit, DecisionRecord(id, permitID, decision));
    AppendWrites(s.audit, FailureRecord(id, outcome));
  }

  lemma AppendWrites(s: AuditState, r: AuditRecord)
    ensures var t := ApplyAudit(s, Append(r, true)).0;
            t.log == s.log + [r] && t.records != [] && t.records[|t.records| - 1] == r
  {
  }

  /** A written event leaves exactly its verdict on the record of its request: of the request it names, if that is a
      label, when its metadata is bad or its permit unknown, and of the permit's request otherwise. */
  lemma EventIsRecorded(s: Trail, e: RuntimeEvent, now: Time)
    ensures var unknown := !ValidMetadata(e) || e.permitID !in s.permits;
            var id := if unknown then e.requestID else s.permits[e.permitID].requestID;
            var t, found := Ingested(s, e, now, true), Lookup(s.audit.records, id);
            && (unknown && !SafeLabel(e.requestID) ==> t == s)
            && (unknown ==> t == s.(audit := t.audit))
            && (found.Some? && id != "" && (unknown ==> SafeLabel(e.requestID)) ==>
                  Lookup(t.audit.records, id) ==
                  Some(found.value.(verdict := EventVerdict(s, e, now, found.value.verdict))))
  {
    hide Lookup, ApplyAudit, Apply, ValidMetadata, SafeLabel, Evaluated;
    var unknown := !ValidMetadata(e) || e.permitID !in s.permits;
    var id := if unknown then e.requestID else s.permits[e.permitID].requestID;
    if Lookup(s.audit.records, id).Some? && id != "" {
      LookupID(s.audit.records, id);
      var step := if unknown then RecordRejectedEvent(id, true)
                  else
                    var r := Evaluated(s.permits[e.permitID], e, now);
                    RecordRuntimeEvent(id, r.accepted, r.within, true);
      MutationWrites(s.audit, id, AuditOpOf(s, step).value.mutate);
    }
  }

  /** A router started on an existing log, with an empty permit store. */
  ghost function TrailAfter(log: seq<AuditRecord>, run: seq<TrailStep>, n: nat): Trail
    requires n <= |run|
  {
    if n == 0 then Trail(EMPTY_STORE, map[], AuditState(Replay(log), log), map[])
    else NextTrail(TrailAfter(log, run, n - 1), run[n - 1])
  }

  lemma {:induction false} AlwaysFiledByID(log: seq<AuditRecord>, run: seq<TrailStep>, n: nat)
    requires n <= |run|
    ensures FiledByID(TrailAfter(log, run, n))
  {
    hide Apply, ApplyAudit, AuditOpOf, AcceptsCompletion;
    if n > 0 {
      AlwaysFiledByID(log, run, n - 1);
    }
  }

  /** In every reachable state, an event with valid metadata on a tracked permit leaves that permit tracked exactly
      when the event was bound to it and inside its envelope; otherwise the permit is no longer outstanding, so no
      call can consume it any more. */
  lemma EventOutsideEndsPermit(log: seq<AuditRecord>, run: seq<TrailStep>, n: nat, e: RuntimeEvent, now: Time,
                               writes: bool)
    requires n <= |run| && ValidMetadata(e) && e.permitID in TrailAfter(log, run, n).permits
    ensures var s := TrailAfter(log, run, n);
            var t, permit := Ingested(s, e, now, writes), s.permits[e.permitID];
            && (e.permitID in t.permits <==> Bound(permit, e, now) && Inside(permit, e))
            && (e.permitID !in t.permits && e.permitID in t.store.records
                ==> t.store.records[e.permitID].state != Issued)
            && (e.permitID in t.permits ==> t == s.(audit := t.audit))
  {
    hide Ended, Bound, Inside, Evaluated, ApplyAudit, ValidMetadata, Apply, TrailAfter;
    AlwaysFiledByID(log, run, n);
    var s := TrailAfter(log, run, n);
    EvaluationExact(s.permits[e.permitID], e, now);
    EndedIsOver(s, e.permitID, now);
  }

  // ---------------------------------------------------------------- the router in place

  /** The router's tracked permits beside the permit store and the audit store it updates. */
  class Router {
    const store: MemoryStore
    const audit: AuditStore.Store
    var permits: map<string, AuthorizationEnvelope>

    constructor (store: MemoryStore, audit: AuditStore.Store)
      ensures this.store == store && this.audit == audit && permits == map[]
    {
      this.store, this.audit, this.permits := store, audit, map[];
    }

    function Value(): Trail
      reads this, store, audit
    {
      Trail(store.Value(), permits, audit.Value(), map[])
    }

    method AuditPermitVerification(requestID: string, permitID: string, state: Option<State>, outcome: Outcome,
                                   writes: bool)
      modifies audit
      ensures Value() == NextTrail(old(Value()), RecordVerification(requestID, permitID, state, outcome, writes))
    {
      hide ApplyAudit;
      var mutation := AuditOpOf(Value(), RecordVerification(requestID, permitID, state, outcome, writes)).value;
      var _ := audit.MutateRecord(requestID, mutation.mutate, writes);
    }

    /** Revoke in the store, stop tracking the permit, and write the revocation into its record. */
    method RevokePermit(permitID: string, now: Time, writes: bool) returns (revoked: bool)
      modifies this, store, audit
      ensures var before := old(Value());
              var response := Apply(before.store, Op.Revoke(permitID, now)).1;
              var afterRevoke := NextTrail(before, StoreDoes(Op.Revoke(permitID, now)));
              && revoked == response.RevokedRecord?
              && Value() == if !revoked then afterRevoke
                            else NextTrail(NextTrail(afterRevoke, Unpublish(permitID)),
                                           RecordRevocation(response.revoked.claims.requestID,
                                                            Some(response.revoked.state), writes))
    {
      hide ApplyAudit, Apply;
      var record := store.Revoke(permitID, now);
      if record.Err? {
        return false;
      }
      permits := permits - {permitID};
      var requestID, state := record.value.claims.requestID, Some(record.value.state);
      var mutation := AuditOpOf(Value(), RecordRevocation(requestID, state, writes)).value;
      var _ := audit.MutateRecord(requestID, mutation.mutate, writes);
      return true;
    }

    /** A runtime event: bad metadata and an unknown permit are recorded against the request it names, if that
        is a label; otherwise the observer decides, and a permit whose execution it ends is revoked. */
    method IngestRuntimeEvent(event: RuntimeEvent, now: Time, writes: bool)
      modifies this, store, audit
      ensures var at := if event.timestamp == -62_135_596_800_000_000_000 then now else event.timestamp;
              Value() == Ingested(old(Value()), event.(timestamp := at), now, writes)
    {
      hide ApplyAudit, Apply, ValidMetadata, SafeLabel, Evaluated;
      var stamped := Stamped(event, now);
      var valid := ValidateMetadata(stamped);
      if !valid || stamped.permitID !in permits {
        AuditRejectedEvent(stamped.requestID, writes);
        return;
      }
      var permit := permits[stamped.permitID];
      var evaluation := Observer.Evaluate(permit, stamped, now);
      if evaluation.terminated {
        permits := permits - {permit.permitID};
        var _ := store.Revoke(permit.permitID, now);
      }
      var step := RecordRuntimeEvent(permit.requestID, evaluation.accepted, evaluation.within, writes);
      var mutation := AuditOpOf(Value(), step).value;
      var _ := audit.MutateRecord(permit.requestID, mutation.mutate, writes);
    }

    method AuditRejectedEvent(requestID: string, writes: bool)
      modifies audit
      ensures Value() == Rejected(old(Value()), requestID, writes)
    {
      hide ApplyAudit, SafeLabel;
      var named := CheckLabel(requestID);
      if !named {
        return;
      }
      var rejection := AuditOpOf(Value(), RecordRejectedEvent(requestID, writes)).value;
      var _ := audit.MutateRecord(requestID, rejection.mutate, writes);
    }

    /** The checks on a completion before its permit is looked up. */
    method ValidateCompletion(c: Completion, source: Source) returns (ok: bool)
      ensures ok <==> AcceptsCompletion(c, source)
    {
      hide SafeLabel;
      var request := CheckLabel(c.requestID);
      var permit := CheckLabel(c.permitID);
      if !request || !permit {
        return false;
      }
      if c.boundary != NoBoundary && source != GatewayEnforced && source != SimulatedDemo {
        return false;
      }
      return !c.attempted || source == GatewayEnforced || source == SimulatedDemo;
    }

    /** A completion: a trusted one needs a consumed permit, and each permit is completed at most once. */
    method CompleteExecution(c: Completion, source: Source, now: Time, writes: bool)
      modifies this, store, audit
      ensures var checked := CheckPermitStep(old(Value()), 0, c, source, now);
              Value() == NextTrail(ReadStateStep(TakePermitStep(checked, 0), 0), RecordCompletion(0, writes))
    {
      hide ApplyAudit, Apply, CompletionMutator, IsExpired, AcceptsCompletion;
      var accepted := ValidateCompletion(c, source);
      if !accepted {
        assert CheckPermitStep(Value(), 0, c, source, now) == Value();
        return;
      }
      if Trusted(source) {
        var checked := store.Get(c.permitID, now);
        if checked.None? || checked.value.state != State.Consumed {
          return;
        }
      }
      if c.permitID !in permits || permits[c.permitID].requestID != c.requestID {
        return;
      }
      var expiresAt := permits[c.permitID].expiresAt;
      permits := permits - {c.permitID};
      FinishCompletion(c, source, now, expiresAt, writes);
    }

    /** The rest of a completion once its permit is taken: read the final state, write the record. */
    method FinishCompletion(c: Completion, source: Source, now: Time, expiresAt: Time, writes: bool)
      modifies store, audit
      ensures var took := old(Value()).(completing := map[0 := TookPermit(c, source, now, expiresAt)]);
              Value() == NextTrail(ReadStateStep(took, 0), RecordCompletion(0, writes))
    {
      hide ApplyAudit, Apply, CompletionUpdate, IsExpired, CompletionMutator;
      var expired := IsExpired(c, now, expiresAt);
      var record := store.Get(c.permitID, now);
      var state := if record.Some? then Some(record.value.state) else None;
      var _ := audit.MutateRecord(c.requestID, CompletionMutator(c, source, expired, state), writes);
    }
  }

  // ---------------------------------------------------------------- failure outcomes are sticky

  predicate FailureRecorded(r: AuditRecord) {
    r.receipt.Some? && r.receipt.value.outcome.Some? && r.receipt.value.outcome != Some(Verified)
  }

  /** What every update of a record keeps: its id, its permit, and a recorded failure. */
  predicate UpdateKeeps(r: AuditRecord, u: AuditRecord) {
    && u.requestID == r.requestID
    && (r.receipt.Some? <==> u.receipt.Some?)
    && (r.receipt.Some? ==> u.receipt.value.permitID == r.receipt.value.permitID)
    && (FailureRecorded(r) ==> FailureRecorded(u))
  }

  lemma UpdatesKeep(s: Trail, step: TrailStep, r: AuditRecord)
    requires AuditOpOf(s, step).Some? && AuditOpOf(s, step).value.Mutate?
    ensures var u := AuditOpOf(s, step).value.mutate(r); u.Some? && UpdateKeeps(r, u.value)
  {
  }

  /** Every mutation the router makes leaves the request id alone. */
  lemma RouterKeepsIDs(s: Trail, step: TrailStep)
    requires AuditOpOf(s, step).Some?
    ensures KeepsID(AuditOpOf(s, step).value)
  {
    hide AuditOpOf;
    var op := AuditOpOf(s, step).value;
    if op.Mutate? {
      forall r: AuditRecord | op.mutate(r).Some? ensures op.mutate(r).value.requestID == r.requestID {
        UpdatesKeep(s, step, r);
      }
    }
  }

  /** In every run of the router, whatever log it started on, every request id that the live store still returns
      gets the same record from a store reloaded from the log. */
  lemma {:induction false} RouterRefinesLog(log: seq<AuditRecord>, run: seq<TrailStep>, n: nat)
    requires n <= |run|
    ensures Agrees(TrailAfter(log, run, n).audit)
  {
    hide Agrees, NextTrail, AuditOpOf, ApplyAudit, Replay;
    if n == 0 {
      AgreesAtStart(log);
    } else {
      RouterRefinesLog(log, run, n - 1);
      var s := TrailAfter(log, run, n - 1);
      StepAudit(s, run[n - 1]);
      if AuditOpOf(s, run[n - 1]).Some? {
        RouterKeepsIDs(s, run[n - 1]);
        OpAgreesExactly(s.audit, AuditOpOf(s, run[n - 1]).value);
      }
    }
  }

  lemma StepAudit(s: Trail, step: TrailStep)
    ensures NextTrail(s, step).audit ==
            match AuditOpOf(s, step) case None => s.audit case Some(op) => ApplyAudit(s.audit, op).0
  {
    hide Apply, ApplyAudit, DecisionRecord, FailureRecord, AcceptsCompletion;
  }

  /** What one audit operation does to the record found under an id. */
  lemma OpLookup(s: AuditState, op: AuditOp, id: string)
    requires id != "" && KeepsID(op) && (op.Append? ==> op.record.requestID != id) && !op.Update?
    ensures var found, after := Lookup(s.records, id), Lookup(ApplyAudit(s, op).0.records, id);
            || after == found || after.None?
            || (op.Mutate? && op.requestID == id && found.Some? && after == op.mutate(found.value))
  {
    hide Lookup, LastIndex;
    var t := ApplyAudit(s, op).0;
    if t != s {
      if op.Append? {
        AppendLookup(s.records, op.record, id);
        TrimLookup(s.records + [op.record], id);
      } else {
        LookupID(s.records, op.requestID);
        var changed := op.mutate(Lookup(s.records, op.requestID).value).value;
        ReplaceLookup(s.records, LastIndex(s.records, op.requestID), changed, id);
      }
    }
  }

  predicate Appends(step: TrailStep, id: string) {
    (step.AppendDecision? && step.requestID == id) || (step.AppendFailure? && step.attemptID == id)
  }

  lemma StepLookup(s: Trail, step: TrailStep, id: string)
    requires id != "" && !Appends(step, id)
    ensures var found, after := Lookup(s.audit.records, id), Lookup(NextTrail(s, step).audit.records, id);
            || after == found || after.None? || (found.Some? && after.Some? && UpdateKeeps(found.value, after.value))
  {
    hide Lookup, UpdateKeeps, ApplyAudit, Apply, DecisionRecord, FailureRecord;
    match AuditOpOf(s, step)
    case None =>
    case Some(op) =>
      RouterKeepsIDs(s, step);
      AppendedID(s, step);
      OpLookup(s.audit, op, id);
      if op.Mutate? && Lookup(s.audit.records, id).Some? {
        UpdatesKeep(s, step, Lookup(s.audit.records, id).value);
      }
  }

  lemma AppendedID(s: Trail, step: TrailStep)
    requires AuditOpOf(s, step).Some?
    ensures var op := AuditOpOf(s, step).value; !op.Update? && (op.Append? ==> Appends(step, op.record.requestID))
  {
  }

  /** Once a request's record names a failure, it never again says VERIFIED or nothing, in any order of
      verifications, revocations, runtime events and completions. */
  lemma {:induction false} FailureIsSticky(log: seq<AuditRecord>, run: seq<TrailStep>, i: nat, j: nat, id: string)
    requires i <= j <= |run| && id != "" && forall k | i <= k < j :: !Appends(run[k], id)
    requires Lookup(TrailAfter(log, run, i).audit.records, id).Some?
    requires FailureRecorded(Lookup(TrailAfter(log, run, i).audit.records, id).value)
    ensures var found := Lookup(TrailAfter(log, run, j).audit.records, id); found.Some? ==> FailureRecorded(found.value)
    decreases j
  {
    hide Lookup, NextTrail, FailureRecorded, Appends;
    if i < j {
      FailureIsSticky(log, run, i, j - 1, id);
      StepLookup(TrailAfter(log, run, j - 1), run[j - 1], id);
      if Lookup(TrailAfter(log, run, j - 1).audit.records, id).None? {
        GoneStaysGone(TrailAfter(log, run, j - 1), run[j - 1], id);
      }
      KeepsFailure();
    }
  }

  lemma KeepsFailure()
    ensures forall r, u :: UpdateKeeps(r, u) && FailureRecorded(r) ==> FailureRecorded(u)
  {
  }

  /** A record trimmed from the window comes back only by being appended anew. */
  lemma GoneStaysGone(s: Trail, step: TrailStep, id: string)
    requires id != "" && !Appends(step, id) && Lookup(s.audit.records, id).None?
    ensures Lookup(NextTrail(s, step).audit.records, id).None?
  {
    hide Lookup, ApplyAudit, Apply, DecisionRecord, FailureRecord;
    match AuditOpOf(s, step)
    case None =>
    case Some(op) =>
      RouterKeepsIDs(s, step);
      AppendedID(s, step);
      OpLookup(s.audit, op, id);
  }

  // ---------------------------------------------------------------- an executed verdict means a consumed permit

  predicate PermitConsumed(store: Permits.Store, permitID: string) {
    permitID in store.records && store.records[permitID].state == Consumed
  }

  /** permitOf names the one permit of each request, or the empty string when it has none; executed holds the
      requests that the log the router started on already records as executed. */
  datatype Past = Past(permitOf: string -> string, executed: set<string>)

  /** A record says that an execution happened only if its permit is consumed, or repeats the starting log. */
  predicate RecordGood(past: Past, store: Permits.Store, r: AuditRecord) {
    && (r.receipt.Some? ==> r.receipt.value.permitID == past.permitOf(r.requestID))
    && (r.verdict == ExecutedWithValidPermit ==>
          || r.requestID in past.executed
          || (r.receipt.Some? && r.receipt.value.outcome == Some(Verified)
              && PermitConsumed(store, r.receipt.value.permitID)))
  }

  /** The hypothesis that request ids are distinct: no two permits are issued for one request. */
  predicate OnePermitEach(permitOf: string -> string, step: TrailStep) {
    && (step.Publish? ==> permitOf(step.permit.requestID) == step.permit.permitID)
    && (step.AppendDecision? ==> permitOf(step.requestID) == step.permitID)
    && (step.AppendFailure? ==> permitOf(step.attemptID) == "")
  }

  predicate CompletingGood(past: Past, store: Permits.Store, p: Completing) {
    && (Trusted(p.source) ==> PermitConsumed(store, p.c.permitID))
    && (!p.CheckedPermit? ==> past.permitOf(p.c.requestID) == p.c.permitID)
  }

  ghost predicate TrailInv(past: Past, s: Trail) {
    && Inv(s.store)
    && (forall id | id in s.permits :: past.permitOf(s.permits[id].requestID) == id)
    && (forall t | t in s.completing :: CompletingGood(past, s.store, s.completing[t]))
    && (forall i | 0 <= i < |s.audit.records| :: RecordGood(past, s.store, s.audit.records[i]))
    && (forall i | 0 <= i < |s.audit.log| :: RecordGood(past, s.store, s.audit.log[i]))
  }

  lemma ConsumedStays(s: Permits.Store, op: Op, permitID: string)
    requires Inv(s) && PermitConsumed(s, permitID)
    ensures PermitConsumed(Apply(s, op).0, permitID)
  {
    hide Apply, Inv;
    ApplyEvolves(s, op);
  }

  /** A store operation alone keeps everything recorded in order. */
  lemma StoreKeepsTrail(past: Past, s: Trail, op: Op)
    requires TrailInv(past, s)
    ensures TrailInv(past, s.(store := Apply(s.store, op).0))
  {
    hide Apply, Inv, PermitConsumed;
    var x := s.(store := Apply(s.store, op).0);
    ApplyKeepsInv(s.store, op);
    forall t | t in x.completing ensures CompletingGood(past, x.store, x.completing[t]) {
      if Trusted(s.completing[t].source) {
        ConsumedStays(s.store, op, s.completing[t].c.permitID);
      }
    }
    forall i | 0 <= i < |x.audit.records| ensures RecordGood(past, x.store, x.audit.records[i]) {
      GoodStays(past, s.store, op, s.audit.records[i]);
    }
    forall i | 0 <= i < |x.audit.log| ensures RecordGood(past, x.store, x.audit.log[i]) {
      GoodStays(past, s.store, op, s.audit.log[i]);
    }
  }

  lemma GoodStays(past: Past, s: Permits.Store, op: Op, r: AuditRecord)
    requires Inv(s) && RecordGood(past, s, r)
    ensures RecordGood(past, Apply(s, op).0, r)
  {
    hide Apply, Inv, PermitConsumed;
    if r.verdict == ExecutedWithValidPermit && r.requestID !in past.executed {
      ConsumedStays(s, op, r.receipt.value.permitID);
    }
  }

  /** Every update of a good record is good.  Only a completion writes the executed verdict, and it has
      checked that the permit of this very request is consumed. */
  lemma UpdateIsGood(past: Past, s: Trail, step: TrailStep, r: AuditRecord)
    requires TrailInv(past, s) && RecordGood(past, s.store, r)
    requires AuditOpOf(s, step).Some? && AuditOpOf(s, step).value.Mutate?
      && r.requestID == AuditOpOf(s, step).value.requestID
    ensures AuditOpOf(s, step).value.mutate(r).Some?
    ensures RecordGood(past, s.store, AuditOpOf(s, step).value.mutate(r).value)
  {
    hide Inv, PermitConsumed;
    if step.RecordCompletion? {
      assert CompletingGood(past, s.store, s.completing[step.t]);
    }
  }

  lemma NewRecordIsGood(past: Past, s: Trail, step: TrailStep)
    requires OnePermitEach(past.permitOf, step) && AuditOpOf(s, step).Some? && AuditOpOf(s, step).value.Append?
    ensures RecordGood(past, s.store, AuditOpOf(s, step).value.record)
  {
  }

  /** An audit operation whose new line is good keeps every record and every line good. */
  lemma AuditKeepsGood(past: Past, store: Permits.Store, a: AuditState, op: AuditOp)
    requires forall i | 0 <= i < |a.records| :: RecordGood(past, store, a.records[i])
    requires forall i | 0 <= i < |a.log| :: RecordGood(past, store, a.log[i])
    requires !op.Update? && (op.Append? ==> RecordGood(past, store, op.record))
    requires op.Mutate? ==> forall r | r in a.records && r.requestID == op.requestID ::
               op.mutate(r).Some? ==> RecordGood(past, store, op.mutate(r).value)
    ensures var x := ApplyAudit(a, op).0;
            && (forall i | 0 <= i < |x.records| :: RecordGood(past, store, x.records[i]))
            && (forall i | 0 <= i < |x.log| :: RecordGood(past, store, x.log[i]))
  {
    hide RecordGood;
    if op.Mutate? && Lookup(a.records, op.requestID).Some? {
      LookupID(a.records, op.requestID);
      assert Lookup(a.records, op.requestID).value in a.records;
    }
  }

  lemma AuditStepKeepsTrail(past: Past, s: Trail, step: TrailStep)
    requires TrailInv(past, s) && OnePermitEach(past.permitOf, step)
    ensures TrailInv(past, AuditStep(s, step))
  {
    hide Inv, RecordGood, CompletingGood, AuditOpOf, ApplyAudit, OnePermitEach;
    match AuditOpOf(s, step)
    case None =>
    case Some(op) =>
      AppendedID(s, step);
      if op.Append? {
        NewRecordIsGood(past, s, step);
      } else {
        forall r | r in s.audit.records && r.requestID == op.requestID
          ensures op.mutate(r).Some? ==> RecordGood(past, s.store, op.mutate(r).value)
        {
          UpdateIsGood(past, s, step, r);
        }
      }
      AuditKeepsGood(past, s.store, s.audit, op);
  }

  /** The completing thread learns that the permit is consumed before it takes it, and consumption is final. */
  lemma CheckPermitKeeps(past: Past, s: Trail, t: nat, c: Completion, source: Source, now: Time)
    requires TrailInv(past, s)
    ensures TrailInv(past, CheckPermitStep(s, t, c, source, now))
  {
    hide Inv, RecordGood;
    StoreKeepsTrail(past, s, Op.Get(c.permitID, now));
  }

  lemma ReadStateKeeps(past: Past, s: Trail, t: nat)
    requires TrailInv(past, s)
    ensures TrailInv(past, ReadStateStep(s, t))
  {
    hide Inv, RecordGood, Apply, IsExpired, PermitConsumed;
    if t in s.completing && s.completing[t].TookPermit? {
      StoreKeepsTrail(past, s, Op.Get(s.completing[t].c.permitID, s.completing[t].receivedAt));
      var x := s.(store := Apply(s.store, Op.Get(s.completing[t].c.permitID, s.completing[t].receivedAt)).0);
      assert CompletingGood(past, x.store, x.completing[t]);
    }
  }

  lemma TrailStepKeeps(past: Past, s: Trail, step: TrailStep)
    requires TrailInv(past, s) && OnePermitEach(past.permitOf, step)
    ensures TrailInv(past, NextTrail(s, step))
  {
    hide Inv, RecordGood, AuditStep, CheckPermitStep, ReadStateStep, Apply;
    match step
    case StoreDoes(op) => StoreKeepsTrail(past, s, op);
    case CheckPermit(t, c, source, now) => CheckPermitKeeps(past, s, t, c, source, now);
    case ReadState(t) => ReadStateKeeps(past, s, t);
    case Publish(_) =>
    case Unpublish(_) =>
    case TakePermit(_) =>
    case _ => AuditStepKeepsTrail(past, s, step);
  }

  /** The requests that a log records as executed. */
  function ExecutedIn(log: seq<AuditRecord>): set<string> {
    set r | r in log && r.verdict == ExecutedWithValidPermit :: r.requestID
  }

  /** The same hypothesis for the log the router started on. */
  predicate OnePermitIn(permitOf: string -> string, log: seq<AuditRecord>) {
    forall r | r in log :: r.receipt.Some? ==> r.receipt.value.permitID == permitOf(r.requestID)
  }

  lemma StartIsGood(permitOf: string -> string, log: seq<AuditRecord>)
    requires OnePermitIn(permitOf, log)
    ensures TrailInv(Past(permitOf, ExecutedIn(log)), Trail(EMPTY_STORE, map[], AuditState(Replay(log), log), map[]))
  {
    hide Replay;
    ReplayFromLog(log);
  }

  lemma {:induction false} TrailReachable(permitOf: string -> string, log: seq<AuditRecord>, run: seq<TrailStep>,
                                          n: nat)
    requires n <= |run| && OnePermitIn(permitOf, log) && forall k | 0 <= k < n :: OnePermitEach(permitOf, run[k])
    ensures TrailInv(Past(permitOf, ExecutedIn(log)), TrailAfter(log, run, n))
    decreases n
  {
    hide NextTrail, OnePermitEach, TrailInv;
    if n > 0 {
      TrailReachable(permitOf, log, run, n - 1);
      TrailStepKeeps(Past(permitOf, ExecutedIn(log)), TrailAfter(log, run, n - 1), run[n - 1]);
    } else {
      StartIsGood(permitOf, log);
    }
  }

  lemma {:induction false} ReplayFromLog(log: seq<AuditRecord>)
    ensures forall r | r in Replay(log) :: r in log
  {
    if log != [] {
      var before := log[..|log| - 1];
      ReplayFromLog(before);
      forall r | r in Replay(log) ensures r in log {
        assert r in Replay(before) || r == log[|log| - 1];
        assert r in before ==> r in log;
      }
    }
  }

  /** In every interleaving, on whatever log the router started, with one permit per request, a record that says an
      execution happened with a valid permit either is of a request that the starting log already records so, or
      records a verified outcome and names a permit that is consumed: in the live store, on every line of the log,
      and in any store reloaded from the log. */
  lemma ExecutedMeansConsumed(permitOf: string -> string, log: seq<AuditRecord>, run: seq<TrailStep>, n: nat,
                              r: AuditRecord)
    requires n <= |run| && OnePermitIn(permitOf, log) && forall k | 0 <= k < n :: OnePermitEach(permitOf, run[k])
    requires var s := TrailAfter(log, run, n); r in s.audit.records || r in s.audit.log || r in Replay(s.audit.log)
    requires r.verdict == ExecutedWithValidPermit
    requires forall line | line in log && line.requestID == r.requestID :: line.verdict != ExecutedWithValidPermit
    ensures r.receipt.Some? && r.receipt.value.outcome == Some(Verified)
    ensures PermitConsumed(TrailAfter(log, run, n).store, r.receipt.value.permitID)
  {
    hide NextTrail, Inv, PermitConsumed, OnePermitEach;
    TrailReachable(permitOf, log, run, n);
    ReplayFromLog(TrailAfter(log, run, n).audit.log);
  }
}
