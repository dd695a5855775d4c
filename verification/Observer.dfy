/**
  The runtime observer (internal/observer/observer.go) and the checks on event metadata that come before
  it (internal/router/router.go): reported runtime events measured against the envelope of the permit.
 */
module Observer {
  import opened Wrappers
  import opened Permits
  import Detection

  // ---------------------------------------------------------------- events and envelopes

  datatype EventSource =
    | GatewayEnforcedSource | InstrumentedAdapter | AgentSelfReported | OSSensor | NetworkSensor | SimulatedDemoSource
    | UnknownSource(name: string)

  datatype TrustLevel =
    | EnforcedTrust | AdapterReported | SelfReportedTrust | IndependentSensor | SimulatedTrust
      | UnknownTrust(name: string)

  datatype RuntimeEvent = RuntimeEvent(
    eventID: string,
    permitID: string,
    requestID: string,
    agentID: string,
    workloadID: string,
    source: EventSource,
    trust: TrustLevel,
    capability: string,
    tool: string,
    operation: string,
    resource: string,
    resourceClass: string,
    destinationClass: string,
    external: bool,
    secretAccess: bool,
    sideEffect: string,
    bytes: int,
    timestamp: Time)

  datatype Constraints = Constraints(
    networkEgress: string,
    secretAccess: string,
    writeAccess: string,
    sideEffects: seq<string>,
    maxBytes: int,
    maxDurationMS: int)

  /** What the router keeps of a permit it still tracks. */
  datatype AuthorizationEnvelope = AuthorizationEnvelope(
    permitID: string,
    requestID: string,
    agentID: string,
    workloadID: string,
    capability: string,
    tool: string,
    resource: string,
    operations: seq<string>,
    constraints: Constraints,
    issuedAt: Time,
    expiresAt: Time)

  datatype Rule =
    | EventIDMissing | SourceUnknown | SourceTrustMismatch | PermitBinding | RequestBinding | AgentBinding
    | WorkloadBinding | PermitExpiry
    | CapabilityExceeded | ToolExceeded | ResourceExceeded | OperationExceeded | EgressDenied | SecretAccessDenied
    | WriteAccessDenied | SideEffectDenied | BytesExceeded | DurationExceeded

  datatype Evaluation = Evaluation(accepted: bool, within: bool, terminated: bool, violations: seq<Rule>)

  // ---------------------------------------------------------------- metadata

  predicate IsLabelChar(c: char) {
    'a' <= c <= 'z' || 'A' <= c <= 'Z' || '0' <= c <= '9' || c == '.' || c == '_' || c == ':' || c == '-'
  }

  /** safeMetadataLabel: such characters take one byte each. */
  predicate SafeLabel(s: string) { 1 <= |s| <= 128 && forall i | 0 <= i < |s| :: IsLabelChar(s[i]) }

  predicate SafeOrMissing(s: string) { s == "" || SafeLabel(s) }

  predicate ValidMetadata(e: RuntimeEvent) {
    && SafeOrMissing(e.eventID) && SafeOrMissing(e.permitID) && SafeOrMissing(e.requestID) && SafeOrMissing(e.agentID)
    && SafeOrMissing(e.workloadID) && SafeOrMissing(e.capability) && SafeOrMissing(e.tool) && SafeOrMissing(e.operation)
    && SafeOrMissing(e.resource) && SafeOrMissing(e.resourceClass) && SafeOrMissing(e.destinationClass)
    && SafeOrMissing(e.sideEffect) && e.bytes >= 0
  }

  /** safeMetadataLabel, character by character. */
  method CheckLabel(s: string) returns (ok: bool)
    ensures ok <==> SafeLabel(s)
  {
    if |s| < 1 || |s| > 128 {
      return false;
    }
    var i := 0;
    while i < |s|
      invariant i <= |s|
      invariant forall j | 0 <= j < i :: IsLabelChar(s[j])
    {
      var c := s[i];
      if !('a' <= c <= 'z' || 'A' <= c <= 'Z' || '0' <= c <= '9' || c in "._:-") {
        return false;
      }
      i := i + 1;
    }
    return true;
  }

  /** validateRuntimeMetadata: every label that is present, then the byte count. */
  method ValidateMetadata(e: RuntimeEvent) returns (ok: bool)
    ensures ok <==> ValidMetadata(e)
  {
    hide SafeLabel;
    var labels := [e.eventID, e.permitID, e.requestID, e.agentID, e.workloadID, e.capability, e.tool, e.operation,
                   e.resource, e.resourceClass, e.destinationClass, e.sideEffect];
    assert labels[0] == e.eventID && labels[1] == e.permitID && labels[2] == e.requestID && labels[3] == e.agentID;
    assert labels[4] == e.workloadID && labels[5] == e.capability && labels[6] == e.tool && labels[7] == e.operation;
    assert labels[8] == e.resource && labels[9] == e.resourceClass && labels[10] == e.destinationClass;
    assert labels[11] == e.sideEffect;
    for i := 0 to |labels|
      invariant forall j | 0 <= j < i :: SafeOrMissing(labels[j])
    {
      var safe := CheckLabel(labels[i]);
      if labels[i] != "" && !safe {
        assert !SafeOrMissing(labels[i]);
        return false;
      }
    }
    return e.bytes >= 0;
  }

  // ---------------------------------------------------------------- what an event must satisfy

  function TrustForSource(source: EventSource): Option<TrustLevel> {
    match source
    case GatewayEnforcedSource => Some(EnforcedTrust)
    case InstrumentedAdapter => Some(AdapterReported)
    case AgentSelfReported => Some(SelfReportedTrust)
    case OSSensor | NetworkSensor => Some(IndependentSensor)
    case SimulatedDemoSource => Some(SimulatedTrust)
    case UnknownSource(_) => None
  }

  predicate IsWrite(operation: string) {
    exists word | word in ["write", "create", "update", "delete", "append", "execute", "invoke", "admin"] ::
      Detection.EqualsLower(operation, word)
  }

  const MAX_DURATION := 0x7FFF_FFFF_FFFF_FFFF

  /** Milliseconds from the issue to the event; a Go duration saturates. */
  function ElapsedMS(p: AuthorizationEnvelope, e: RuntimeEvent): int {
    var elapsed := e.timestamp - p.issuedAt;
    (if elapsed > MAX_DURATION then MAX_DURATION else elapsed) / 1_000_000
  }

  predicate OutsideLifetime(p: AuthorizationEnvelope, e: RuntimeEvent, now: Time) {
    p.expiresAt <= now || (e.timestamp != ZERO_TIME && p.expiresAt < e.timestamp)
  }

  predicate AllowsSideEffect(p: AuthorizationEnvelope, sideEffect: string) {
    sideEffect == "" || sideEffect == "none" || sideEffect == "read_only" || sideEffect in p.constraints.sideEffects
  }

  predicate WithinDuration(p: AuthorizationEnvelope, e: RuntimeEvent) {
    p.constraints.maxDurationMS <= 0 || e.timestamp == ZERO_TIME || ElapsedMS(p, e) <= p.constraints.maxDurationMS
  }

  // ---------------------------------------------------------------- evaluation

  function When(broken: bool, rule: Rule): seq<Rule> { if broken then [rule] else [] }

  function BindingViolations(p: AuthorizationEnvelope, e: RuntimeEvent, now: Time): seq<Rule> {
    [] + When(e.eventID == "", EventIDMissing)
    + When(TrustForSource(e.source).None?, SourceUnknown)
    + When(TrustForSource(e.source).Some? && TrustForSource(e.source).value != e.trust, SourceTrustMismatch)
    + When(p.permitID == "" || e.permitID != p.permitID, PermitBinding)
    + When(e.requestID != p.requestID, RequestBinding)
    + When(e.agentID != p.agentID, AgentBinding)
    + When(e.workloadID != "" && e.workloadID != p.workloadID, WorkloadBinding)
    + When(OutsideLifetime(p, e, now), PermitExpiry)
  }

  function BoundaryViolations(p: AuthorizationEnvelope, e: RuntimeEvent): seq<Rule> {
    [] + When(e.capability != p.capability, CapabilityExceeded)
    + When(e.tool != p.tool, ToolExceeded)
    + When(e.resource != p.resource, ResourceExceeded)
    + When(e.operation !in p.operations, OperationExceeded)
    + When(e.external && p.constraints.networkEgress != "allow", EgressDenied)
    + When(e.secretAccess && p.constraints.secretAccess != "allow", SecretAccessDenied)
    + When(IsWrite(e.operation) && p.constraints.writeAccess != "allow", WriteAccessDenied)
    + When(!AllowsSideEffect(p, e.sideEffect), SideEffectDenied)
    + When(p.constraints.maxBytes > 0 && e.bytes > p.constraints.maxBytes, BytesExceeded)
    + When(!WithinDuration(p, e), DurationExceeded)
  }

  function Evaluated(p: AuthorizationEnvelope, e: RuntimeEvent, now: Time): Evaluation {
    var binding, boundary := BindingViolations(p, e, now), BoundaryViolations(p, e);
    if binding != [] then Evaluation(false, false, true, binding)
    else Evaluation(true, boundary == [], boundary != [], boundary)
  }

  // ---------------------------------------------------------------- what an evaluation means

  /** An operation that writes, in any mixture of cases. */
  ghost predicate Writes(operation: string) {
    exists word | word in {"write", "create", "update", "delete", "append", "execute", "invoke", "admin"} ::
      Detection.Spells(operation, word)
  }

  lemma WritesExact(operation: string)
    ensures IsWrite(operation) <==> Writes(operation)
  {
    hide Detection.Spells, Detection.EqualsLower;
    forall word | word in ["write", "create", "update", "delete", "append", "execute", "invoke", "admin"]
      ensures Detection.EqualsLower(operation, word) <==> Detection.Spells(operation, word)
    {
      SpelledSmall(word);
      Detection.SpellsExact(operation, word);
    }
  }

  lemma SpelledSmall(word: string)
    requires word in ["write", "create", "update", "delete", "append", "execute", "invoke", "admin"]
    ensures Detection.LowerCase(word)
  {
  }

  /** The trust each source of evidence may claim. */
  predicate MayClaim(source: EventSource, trust: TrustLevel) {
    (source, trust) in {
      (GatewayEnforcedSource, EnforcedTrust), (InstrumentedAdapter, AdapterReported),
      (AgentSelfReported, SelfReportedTrust), (OSSensor, IndependentSensor), (NetworkSensor, IndependentSensor),
      (SimulatedDemoSource, SimulatedTrust)}
  }

  /** A time that is set. */
  predicate IsSet(t: Time) { t != -62_135_596_800_000_000_000 }

  /** The event is about this permit, from a source whose trust it states, and inside the permit's lifetime. */
  predicate Bound(p: AuthorizationEnvelope, e: RuntimeEvent, now: Time) {
    && e.eventID != "" && MayClaim(e.source, e.trust)
    && e.permitID == p.permitID != "" && e.requestID == p.requestID && e.agentID == p.agentID
    && (e.workloadID == "" || e.workloadID == p.workloadID)
    && now < p.expiresAt && (IsSet(e.timestamp) ==> e.timestamp <= p.expiresAt)
  }

  /** The event comes less than a millisecond past the longest duration, if at all; Go counts at most 2^63-1
      nanoseconds between two times. */
  predicate InTime(p: AuthorizationEnvelope, e: RuntimeEvent) {
    p.constraints.maxDurationMS > 0 && IsSet(e.timestamp) ==>
      || e.timestamp - p.issuedAt < (p.constraints.maxDurationMS + 1) * 1_000_000
      || 0x7FFF_FFFF_FFFF_FFFF < (p.constraints.maxDurationMS + 1) * 1_000_000
  }

  /** The event stays inside what the permit allows. */
  ghost predicate Inside(p: AuthorizationEnvelope, e: RuntimeEvent) {
    && e.capability == p.capability && e.tool == p.tool && e.resource == p.resource && e.operation in p.operations
    && (e.external ==> p.constraints.networkEgress == "allow")
    && (e.secretAccess ==> p.constraints.secretAccess == "allow")
    && (Writes(e.operation) ==> p.constraints.writeAccess == "allow")
    && e.sideEffect in ["", "none", "read_only"] + p.constraints.sideEffects
    && (p.constraints.maxBytes > 0 ==> e.bytes <= p.constraints.maxBytes)
    && InTime(p, e)
  }

  /** What breaks each rule. */
  ghost predicate Breaks(p: AuthorizationEnvelope, e: RuntimeEvent, now: Time, rule: Rule) {
    match rule
    case EventIDMissing => e.eventID == ""
    case SourceUnknown => e.source.UnknownSource?
    case SourceTrustMismatch => !e.source.UnknownSource? && !MayClaim(e.source, e.trust)
    case PermitBinding => p.permitID == "" || e.permitID != p.permitID
    case RequestBinding => e.requestID != p.requestID
    case AgentBinding => e.agentID != p.agentID
    case WorkloadBinding => e.workloadID !in {"", p.workloadID}
    case PermitExpiry => now >= p.expiresAt || (IsSet(e.timestamp) && e.timestamp > p.expiresAt)
    case CapabilityExceeded => e.capability != p.capability
    case ToolExceeded => e.tool != p.tool
    case ResourceExceeded => e.resource != p.resource
    case OperationExceeded => e.operation !in p.operations
    case EgressDenied => e.external && p.constraints.networkEgress != "allow"
    case SecretAccessDenied => e.secretAccess && p.constraints.secretAccess != "allow"
    case WriteAccessDenied => Writes(e.operation) && p.constraints.writeAccess != "allow"
    case SideEffectDenied => e.sideEffect !in ["", "none", "read_only"] + p.constraints.sideEffects
    case BytesExceeded => 0 < p.constraints.maxBytes < e.bytes
    case DurationExceeded => !InTime(p, e)
  }

  predicate AboutBinding(rule: Rule) {
    rule in {EventIDMissing, SourceUnknown, SourceTrustMismatch, PermitBinding, RequestBinding, AgentBinding,
             WorkloadBinding, PermitExpiry}
  }

  lemma BindingExact(p: AuthorizationEnvelope, e: RuntimeEvent, now: Time)
    ensures forall rule :: rule in BindingViolations(p, e, now) <==> AboutBinding(rule) && Breaks(p, e, now, rule)
    ensures BindingViolations(p, e, now) == [] <==> Bound(p, e, now)
  {
  }

  lemma DurationExact(p: AuthorizationEnvelope, e: RuntimeEvent)
    ensures WithinDuration(p, e) <==> InTime(p, e)
  {
  }

  lemma SideEffectExact(p: AuthorizationEnvelope, sideEffect: string)
    ensures AllowsSideEffect(p, sideEffect) <==> sideEffect in ["", "none", "read_only"] + p.constraints.sideEffects
  {
  }

  lemma BoundaryRule(p: AuthorizationEnvelope, e: RuntimeEvent, now: Time, rule: Rule)
    ensures rule in BoundaryViolations(p, e) <==> !AboutBinding(rule) && Breaks(p, e, now, rule)
  {
    hide IsWrite, Writes, WithinDuration, InTime, AllowsSideEffect, When;
    WritesExact(e.operation);
    DurationExact(p, e);
    SideEffectExact(p, e.sideEffect);
    forall broken, other ensures rule in When(broken, other) <==> broken && rule == other {
      WhenExact(broken, other, rule);
    }
  }

  lemma WhenExact(broken: bool, other: Rule, rule: Rule)
    ensures rule in When(broken, other) <==> broken && rule == other
  {
  }

  lemma InsideBreaksNothing(p: AuthorizationEnvelope, e: RuntimeEvent, now: Time)
    ensures Inside(p, e) <==> forall rule | !AboutBinding(rule) :: !Breaks(p, e, now, rule)
  {
    hide Breaks, AboutBinding;
    forall rule | !AboutBinding(rule) && Inside(p, e) ensures !Breaks(p, e, now, rule) {
      InsideKeeps(p, e, now, rule);
    }
    if forall rule | !AboutBinding(rule) :: !Breaks(p, e, now, rule) {
      KeepsAll(p, e, now);
    }
  }

  lemma InsideKeeps(p: AuthorizationEnvelope, e: RuntimeEvent, now: Time, rule: Rule)
    requires Inside(p, e) && !AboutBinding(rule)
    ensures !Breaks(p, e, now, rule)
  {
    hide Writes, InTime;
  }

  lemma KeepsAll(p: AuthorizationEnvelope, e: RuntimeEvent, now: Time)
    requires forall rule | !AboutBinding(rule) :: !Breaks(p, e, now, rule)
    ensures Inside(p, e)
  {
    hide Writes, InTime;
    assert !Breaks(p, e, now, CapabilityExceeded) && !Breaks(p, e, now, ToolExceeded);
    assert !Breaks(p, e, now, ResourceExceeded) && !Breaks(p, e, now, OperationExceeded);
    assert !Breaks(p, e, now, EgressDenied) && !Breaks(p, e, now, SecretAccessDenied);
    assert !Breaks(p, e, now, WriteAccessDenied) && !Breaks(p, e, now, SideEffectDenied);
    assert !Breaks(p, e, now, BytesExceeded) && !Breaks(p, e, now, DurationExceeded);
  }

  lemma BoundaryExact(p: AuthorizationEnvelope, e: RuntimeEvent, now: Time)
    ensures forall rule :: rule in BoundaryViolations(p, e) <==> !AboutBinding(rule) && Breaks(p, e, now, rule)
    ensures BoundaryViolations(p, e) == [] <==> Inside(p, e)
  {
    hide BoundaryViolations, Inside, Breaks, AboutBinding;
    forall rule ensures rule in BoundaryViolations(p, e) <==> !AboutBinding(rule) && Breaks(p, e, now, rule) {
      BoundaryRule(p, e, now, rule);
    }
    InsideBreaksNothing(p, e, now);
    if BoundaryViolations(p, e) != [] {
      assert BoundaryViolations(p, e)[0] in BoundaryViolations(p, e);
    }
  }

  /** An event is accepted exactly when it is bound to the permit, and within the envelope exactly when it also
      stays inside; anything else ends the execution.  The violations are exactly the rules broken: those of the
      binding if there are any, those of the envelope otherwise. */
  lemma EvaluationExact(p: AuthorizationEnvelope, e: RuntimeEvent, now: Time)
    ensures var r := Evaluated(p, e, now);
            && (r.accepted <==> Bound(p, e, now))
            && (r.within <==> Bound(p, e, now) && Inside(p, e))
            && (r.terminated <==> !r.within)
            && forall rule :: rule in r.violations <==> Breaks(p, e, now, rule) && (AboutBinding(rule) || r.accepted)
  {
    hide Bound, Inside, Breaks, AboutBinding, BindingViolations, BoundaryViolations;
    BindingExact(p, e, now);
    BoundaryExact(p, e, now);
  }

  /** observer.Evaluate: the checks in order, each adding its violation. */
  method Evaluate(p: AuthorizationEnvelope, e: RuntimeEvent, now: Time) returns (r: Evaluation)
    ensures r == Evaluated(p, e, now)
  {
    hide IsWrite, WithinDuration, AllowsSideEffect, OutsideLifetime;
    var violations := CheckBinding(p, e, now);
    if violations != [] {
      return Evaluation(false, false, true, violations);
    }
    violations := CheckBoundary(p, e);
    return Evaluation(true, violations == [], violations != [], violations);
  }

  /** One check: its rule is added when it is broken. */
  method Check(violations: seq<Rule>, broken: bool, rule: Rule) returns (all: seq<Rule>)
    ensures all == violations + When(broken, rule)
  {
    all := violations;
    if broken {
      all := all + [rule];
    }
  }

  method CheckBinding(p: AuthorizationEnvelope, e: RuntimeEvent, now: Time) returns (violations: seq<Rule>)
    ensures violations == BindingViolations(p, e, now)
  {
    hide OutsideLifetime, When;
    var expected := TrustForSource(e.source);
    violations := Check([], e.eventID == "", EventIDMissing);
    violations := Check(violations, expected.None?, SourceUnknown);
    violations := Check(violations, expected.Some? && expected.value != e.trust, SourceTrustMismatch);
    violations := Check(violations, p.permitID == "" || e.permitID != p.permitID, PermitBinding);
    violations := Check(violations, e.requestID != p.requestID, RequestBinding);
    violations := Check(violations, e.agentID != p.agentID, AgentBinding);
    violations := Check(violations, e.workloadID != "" && e.workloadID != p.workloadID, WorkloadBinding);
    violations := Check(violations, OutsideLifetime(p, e, now), PermitExpiry);
  }

  method CheckBoundary(p: AuthorizationEnvelope, e: RuntimeEvent) returns (violations: seq<Rule>)
    ensures violations == BoundaryViolations(p, e)
  {
    hide IsWrite, WithinDuration, AllowsSideEffect, When;
    var c := p.constraints;
    violations := Check([], e.capability != p.capability, CapabilityExceeded);
    violations := Check(violations, e.tool != p.tool, ToolExceeded);
    violations := Check(violations, e.resource != p.resource, ResourceExceeded);
    violations := Check(violations, e.operation !in p.operations, OperationExceeded);
    violations := Check(violations, e.external && c.networkEgress != "allow", EgressDenied);
    violations := Check(violations, e.secretAccess && c.secretAccess != "allow", SecretAccessDenied);
    violations := Check(violations, IsWrite(e.operation) && c.writeAccess != "allow", WriteAccessDenied);
    violations := Check(violations, !AllowsSideEffect(p, e.sideEffect), SideEffectDenied);
    violations := Check(violations, c.maxBytes > 0 && e.bytes > c.maxBytes, BytesExceeded);
    violations := Check(violations, !WithinDuration(p, e), DurationExceeded);
  }
}
