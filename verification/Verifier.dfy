/**
  The pre-execution reference monitor (internal/verifier/verifier.go).

  A verification reads the clock, inspects the permit against the store, checks the proof
  locally, spends the nonce, reads the clock again and consumes the permit.  Each of the steps
  that touches shared state is a function here; class Verifier runs them in the source's order.
 */
module Verifier {
  import opened Wrappers
  import opened CanonicalAction
  import opened Permits
  import opened ExecutionProof
  import Canonical
  import Codec
  import Utf8

  datatype Outcome =
    | Verified | PermitExpired | InvalidSignature | ActionMismatch
    | WrongPrincipal | WrongAgent | WrongWorkload | WrongDelegation | WrongTool | WrongCapability
    | WrongResource | WrongOperation | WrongProfile | WrongAudience | WrongExecutionBinding
    | ReplayedPermit | RevokedPermit | InvalidIssuer | UnknownPermitID | InvalidPermit | InvalidActionOutcome
    | NotYetValid | WrongPermitClass | WrongExecutor | ValidNotConsumed | UnsatisfiedObligation

  /** A presented permit token: the key it names, its claims, the key that signed it, and whether
      its header and payload decode consistently. */
  datatype PermitToken = NoToken | PermitToken(keyID: string, claims: Claims, signer: PublicKey, decodes: bool)

  datatype Config = Config(issuer: string, signingKeys: map<string, PublicKey>)

  datatype VResult = VResult(
    outcome: Outcome,
    verified: bool,
    claims: Option<Claims>,
    state: Option<State>,
    verifiedAt: Time)

  // ---------------------------------------------------------------- inspect

  /** Everything about the token itself, before the store is consulted. */
  function TokenOutcome(cfg: Config, token: PermitToken, permitClass: PermitClass): Outcome {
    if token.NoToken? || token.keyID !in cfg.signingKeys || token.signer != cfg.signingKeys[token.keyID]
      then InvalidSignature
    else if !token.decodes || !ValidClaims(token.claims) || token.claims.signingKeyID != token.keyID then InvalidPermit
    else if token.claims.permitClass != permitClass then WrongPermitClass
    else if token.claims.issuer != cfg.issuer then InvalidIssuer
    else Verified
  }

  /** Claims are reported only once the token is authenticated and valid. */
  function TokenClaims(cfg: Config, token: PermitToken, permitClass: PermitClass): Option<Claims> {
    if TokenOutcome(cfg, token, permitClass) in {InvalidSignature, InvalidPermit} then None else Some(token.claims)
  }

  function RecordOutcome(r: Record, c: Claims, now: Time): Outcome {
    if r.claims != c then InvalidPermit
    else if now < c.IssuedTime() then NotYetValid
    else match r.state
      case Expired => PermitExpired
      case Consumed => ReplayedPermit
      case Revoked => RevokedPermit
      case Issued => Verified
  }

  function Inspect(cfg: Config, s: Store, token: PermitToken, permitClass: PermitClass, now: Time): (Store, VResult) {
    var outcome := TokenOutcome(cfg, token, permitClass);
    var claims := TokenClaims(cfg, token, permitClass);
    if outcome != Verified then (s, VResult(outcome, false, claims, None, now))
    else
      var (t, response) := Apply(s, Op.Get(token.claims.permitID, now));
      match response
      case Found(r) => (t, VResult(RecordOutcome(r, token.claims, now), false, claims, Some(r.state), now))
      case _ => (t, VResult(UnknownPermitID, false, claims, None, now))
  }

  // ---------------------------------------------------------------- local checks

  ghost function ActionBinding(hash: Hash, a: Action, c: Claims): Outcome {
    if !Valid(a) then InvalidActionOutcome
    else if a.principalID != c.principalID then WrongPrincipal
    else if a.agentID != c.agentID then WrongAgent
    else if a.workloadID != c.workloadID then WrongWorkload
    else if a.delegation != c.delegation then WrongDelegation
    else if a.tool != c.tool then WrongTool
    else if a.capability != c.capability then WrongCapability
    else if a.resource != c.resource then WrongResource
    else if a.operation != c.operation then WrongOperation
    else if a.profileID != c.profileID then WrongProfile
    else if a.audience != c.audience then WrongAudience
    else if a.executionBinding != c.executionBinding then WrongExecutionBinding
    else match Digest(hash, a)
      case Err(_) => InvalidActionOutcome
      case Ok(digest) => if digest == c.actionDigest then Verified else ActionMismatch
  }

  /** The claims carry the very scalar fields of the action. */
  predicate BindsScalars(c: Claims, a: Action) {
    && a.principalID == c.principalID && a.agentID == c.agentID && a.workloadID == c.workloadID
       && a.delegation == c.delegation
    && a.tool == c.tool && a.capability == c.capability && a.resource == c.resource && a.operation == c.operation
    && a.profileID == c.profileID && a.audience == c.audience && a.executionBinding == c.executionBinding
  }

  /** An action is bound exactly when it is valid, agrees with the claims in all eleven fields, and has
      the digest they were signed for. */
  lemma ActionBindingExact(hash: Hash, a: Action, c: Claims)
    ensures ActionBinding(hash, a, c) == Verified <==>
            Valid(a) && BindsScalars(c, a) && Digest(hash, a) == Ok(c.actionDigest)
  {
    hide Valid, Digest;
  }

  function Thumbprint(hash: Hash, key: PublicKey): string { "sha256:" + hash(key) }

  /** The arrival at the nonce step of a call presenting this proof with this clock reading. */
  function AttemptOf(proof: ProofToken, now: Time): Attempt
    requires proof.ProofToken?
  {
    Attempt(proof.keyID, proof.claims.nonce, proof.claims.issuedAt, now)
  }

  /** The checks between inspection and the nonce step, in the source's order. */
  ghost function ProofOutcome(hash: Hash, keys: map<string, PublicKey>, c: Claims, proof: ProofToken, a: Action,
                              httpMethod: string, httpPath: string, now: Time): Outcome {
    if c.executorKeyThumbprint == "" then InvalidPermit
    else if proof.Malformed? || !ValidKeyID(proof.keyID) || proof.keyID !in keys then WrongExecutor
    else if !VerifiesUnder(proof, keys[proof.keyID]) then WrongExecutor
    else if proof.keyID != c.executorKeyID || Thumbprint(hash, keys[proof.keyID]) != c.executorKeyThumbprint
      then WrongExecutor
    else if proof.claims.permitID != c.permitID || proof.claims.actionDigest != c.actionDigest
         || proof.claims.httpMethod != httpMethod || proof.claims.httpPath != httpPath then WrongExecutor
    else if !Fresh(AttemptOf(proof, now)) then WrongExecutor
    else if ActionBinding(hash, a, c) != Verified then ActionBinding(hash, a, c)
    else if c.obligations != NO_OBLIGATIONS then UnsatisfiedObligation
    else Verified
  }

  /** The proof is signed by the registered workload key the permit names, for this permit, this digest
      and this endpoint, and was issued at most 5 seconds after the clock reading and at most 30 seconds before it. */
  predicate ProofHolds(hash: Hash, keys: map<string, PublicKey>, c: Claims, proof: ProofToken, httpMethod: string,
                       httpPath: string, now: Time) {
    && c.executorKeyThumbprint != "" && proof.ProofToken? && proof.keyID == c.executorKeyID && proof.keyID in keys
    && proof.signer == keys[proof.keyID] && "sha256:" + hash(proof.signer) == c.executorKeyThumbprint
    && ValidProof(proof.claims) && proof.claims.permitID == c.permitID && proof.claims.actionDigest == c.actionDigest
    && proof.claims.httpMethod == httpMethod && proof.claims.httpPath == httpPath && ValidKeyID(proof.keyID)
    && -5_000_000_000 <= now - proof.claims.issuedAt * 1_000_000_000 <= 30_000_000_000
  }

  /** The signed obligations ask for no isolation, egress control, read-only tool, approval or extra audit. */
  predicate DemandsNothing(c: Claims) { c.obligations == Obligations(false, false, false, false, false) }

  /** The local checks pass exactly when the proof holds, the action is the one bound, and nothing is
      demanded of the executor that it cannot satisfy. */
  lemma ChecksExact(hash: Hash, keys: map<string, PublicKey>, c: Claims, proof: ProofToken, a: Action,
                    httpMethod: string, httpPath: string, now: Time)
    ensures ProofOutcome(hash, keys, c, proof, a, httpMethod, httpPath, now) == Verified <==>
            && ProofHolds(hash, keys, c, proof, httpMethod, httpPath, now)
            && Valid(a) && BindsScalars(c, a) && Digest(hash, a) == Ok(c.actionDigest) && DemandsNothing(c)
  {
    hide Valid, Digest, ActionBinding, BindsScalars, ValidProof, ValidKeyID;
    ActionBindingExact(hash, a, c);
  }

  // ---------------------------------------------------------------- consume

  /** The time a permit is consumed at: the second reading, or the first one when the clock has fallen since. */
  function ConsumeTime(inspectedAt: Time, clock: Time): (at: Time)
    ensures inspectedAt <= at && clock <= at && at in {inspectedAt, clock}
  {
    if clock < inspectedAt then inspectedAt else clock
  }

  function ConsumedOutcome(outcome: ConsumeOutcome): Outcome {
    match outcome
    case Succeeded => Verified
    case WasExpired => PermitExpired
    case Replayed => ReplayedPermit
    case WasRevoked => RevokedPermit
    case UnknownPermit => UnknownPermitID
  }

  function ConsumeInspected(s: Store, r: VResult, clock: Time): (Store, VResult)
    requires r.claims.Some?
  {
    var at := ConsumeTime(r.verifiedAt, clock);
    var (t, response) := Apply(s, Op.Consume(r.claims.value.permitID, at));
    match response
    case ConsumeResult(outcome, record) =>
      (t, VResult(ConsumedOutcome(outcome), outcome == Succeeded, r.claims,
                  if record.Some? then Some(record.value.state) else None, at))
    case _ => (t, r)
  }

  // ---------------------------------------------------------------- the calls, run without interleaving

  /** The whole state a call may touch. */
  datatype Shared = Shared(store: Store, nonces: Nonces)

  ghost function VerifyProof(hash: Hash, cfg: Config, keys: map<string, PublicKey>, sh: Shared, token: PermitToken,
                             proof: ProofToken, a: Action, httpMethod: string, httpPath: string,
                             now: Time): (Shared, VResult)
  {
    var (store, r) := Inspect(cfg, sh.store, token, Execution, now);
    var inspected := sh.(store := store);
    if r.outcome != Verified || r.claims.None? then (inspected, r)
    else
      var outcome := ProofOutcome(hash, keys, r.claims.value, proof, a, httpMethod, httpPath, now);
      if outcome != Verified || proof.Malformed? then (inspected, r.(outcome := outcome))
      else
        var (nonces, first) := Step(sh.nonces, AttemptOf(proof, now));
        (inspected.(nonces := nonces), if first then r.(verified := true) else r.(outcome := WrongExecutor))
  }

  ghost function VerifyAndConsume(hash: Hash, cfg: Config, keys: map<string, PublicKey>, sh: Shared, token: PermitToken,
                                  proof: ProofToken, a: Action, httpMethod: string, httpPath: string,
                                  now: Time, later: Time): (Shared, VResult)
  {
    var (checked, r) := VerifyProof(hash, cfg, keys, sh, token, proof, a, httpMethod, httpPath, now);
    if r.outcome != Verified || r.claims.None? then (checked, r)
    else
      var (store, consumed) := ConsumeInspected(checked.store, r, later);
      (checked.(store := store), consumed)
  }

  /** The isolated path of simulations: inspection, action binding, consumption. */
  ghost function SimulateAndConsume(hash: Hash, cfg: Config, s: Store, token: PermitToken, a: Action, now: Time,
                                    later: Time): (Store, VResult)
  {
    var (store, r) := Inspect(cfg, s, token, Simulation, now);
    if r.outcome != Verified || r.claims.None? then (store, r)
    else
      var outcome := ActionBinding(hash, a, r.claims.value);
      if outcome != Verified then (store, r.(outcome := outcome)) else ConsumeInspected(store, r, later)
  }

  /** The token is signed by the key it names, which is one of the issuer's, over valid claims of the class. */
  predicate TokenAuthentic(cfg: Config, token: PermitToken, permitClass: PermitClass) {
    && token.PermitToken? && token.keyID in cfg.signingKeys && token.signer == cfg.signingKeys[token.keyID]
    && token.decodes && ValidClaims(token.claims) && token.claims.signingKeyID == token.keyID
    && token.claims.permitClass == permitClass && token.claims.issuer == cfg.issuer
  }

  lemma InspectExact(cfg: Config, s: Store, token: PermitToken, permitClass: PermitClass, now: Time)
    ensures Inspect(cfg, s, token, permitClass, now).1.outcome == Verified <==>
            && TokenAuthentic(cfg, token, permitClass)
            && token.claims.permitID in s.records && s.records[token.claims.permitID].claims == token.claims
            && s.records[token.claims.permitID].state == Issued
            && token.claims.IssuedTime() <= now < token.claims.ExpiresTime()
    ensures Inspect(cfg, s, token, permitClass, now).1.outcome == Verified ==>
              Inspect(cfg, s, token, permitClass, now) ==
              (s, VResult(Verified, false, Some(token.claims), Some(Issued), now))
  {
    if TokenAuthentic(cfg, token, permitClass) {
      assert token.claims.issuedAt > 0;
      assert token.claims.IssuedTime() > ZERO_TIME;
      hide ValidClaims;
      var id := token.claims.permitID;
      if id in s.records && s.records[id].state == Issued && now < s.records[id].claims.ExpiresTime() {
        assert s.records[id := s.records[id]] == s.records;
        assert Put(s, id, s.records[id]) == s;
      }
    }
  }

  /** The permit is outstanding with these very claims, the first reading is inside its lifetime, and the second is
      still before its expiry. */
  predicate InLifetime(s: Store, c: Claims, now: Time, later: Time) {
    && c.permitID in s.records && s.records[c.permitID].claims == c && s.records[c.permitID].state == Issued
    && c.issuedAt * 1_000_000_000 <= now < c.expiresAt * 1_000_000_000 && later < c.expiresAt * 1_000_000_000
  }

  /** No entry for the key and the nonce expires after the second of this reading. */
  predicate Unspent(m: Nonces, keyID: string, nonce: string, now: Time) {
    var key := keyID + "\0" + nonce;
    key in m ==> m[key] <= now / 1_000_000_000
  }

  /** The nonces after the entry of a proof: what has expired is gone, and the proof's entry expires 35 seconds after
      its issue. */
  function Spent(m: Nonces, proof: ProofToken, now: Time): Nonces
    requires proof.ProofToken?
  {
    (map k | k in m && m[k] > now / 1_000_000_000 :: m[k])
    [proof.keyID + "\0" + proof.claims.nonce := proof.claims.issuedAt + 35]
  }

  /** A fresh proof passes the nonce step exactly when its nonce is unspent, and then it is spent. */
  lemma NonceStepExact(hash: Hash, keys: map<string, PublicKey>, c: Claims, proof: ProofToken, httpMethod: string,
                       httpPath: string, m: Nonces, now: Time)
    requires ProofHolds(hash, keys, c, proof, httpMethod, httpPath, now)
    ensures Step(m, AttemptOf(proof, now)).1 <==> Unspent(m, proof.keyID, proof.claims.nonce, now)
    ensures Step(m, AttemptOf(proof, now)).1 ==> Step(m, AttemptOf(proof, now)).0 == Spent(m, proof, now)
  {
    hide Utf8.Encode;
  }

  /** Everything a call must meet: the token is authentic, its permit outstanding and in its lifetime, the proof
      holds, the action is the one bound, nothing else is demanded, the nonce is unspent and the authority in force. */
  ghost predicate MayExecute(hash: Hash, cfg: Config, keys: map<string, PublicKey>, sh: Shared, token: PermitToken,
                             proof: ProofToken, a: Action, httpMethod: string, httpPath: string, now: Time,
                             later: Time)
  {
    && TokenAuthentic(cfg, token, Execution)
    && var c := token.claims;
       && InLifetime(sh.store, c, now, later) && ProofHolds(hash, keys, c, proof, httpMethod, httpPath, now)
       && Valid(a) && BindsScalars(c, a) && Digest(hash, a) == Ok(c.actionDigest) && DemandsNothing(c)
       && Unspent(sh.nonces, proof.keyID, proof.claims.nonce, now) && InForce(sh.store, c)
  }

  /** A whole call authorizes exactly when it meets all of it. */
  lemma CallVerifiedExactlyWhen(hash: Hash, cfg: Config, keys: map<string, PublicKey>, sh: Shared, token: PermitToken,
                                proof: ProofToken, a: Action, httpMethod: string, httpPath: string, now: Time,
                                later: Time)
    ensures VerifyAndConsume(hash, cfg, keys, sh, token, proof, a, httpMethod, httpPath, now, later).1.verified <==>
            MayExecute(hash, cfg, keys, sh, token, proof, a, httpMethod, httpPath, now, later)
  {
    hide Inspect, TokenAuthentic, ProofHolds, Valid, BindsScalars, Digest, Step, AuthorityHolds, ValidClaims,
      VerifyAndConsume, Unspent, InForce;
    InspectExact(cfg, sh.store, token, Execution, now);
    if Inspect(cfg, sh.store, token, Execution, now).1.outcome == Verified {
      IssuedAfterZero(cfg, token, Execution);
      AfterInspection(hash, cfg, keys, sh, token, proof, a, httpMethod, httpPath, now, later);
      ChecksExact(hash, keys, token.claims, proof, a, httpMethod, httpPath, now);
      SucceedsBeforeExpiry(sh.store, token.claims, ConsumeTime(now, later));
      InForceExact(sh.store, token.claims);
      if ProofHolds(hash, keys, token.claims, proof, httpMethod, httpPath, now) {
        NonceStepExact(hash, keys, token.claims, proof, httpMethod, httpPath, sh.nonces, now);
      }
    } else {
      NotInspected(hash, cfg, keys, sh, token, proof, a, httpMethod, httpPath, now, later);
    }
  }

  /** A call that authorizes consumes its own permit and no other, at the later of the two clock readings, which the
      result reports too; and it spends its nonce and no other. */
  lemma CallConsumesAtLaterReading(hash: Hash, cfg: Config, keys: map<string, PublicKey>, sh: Shared,
                                   token: PermitToken, proof: ProofToken, a: Action, httpMethod: string,
                                   httpPath: string, now: Time, later: Time)
    requires VerifyAndConsume(hash, cfg, keys, sh, token, proof, a, httpMethod, httpPath, now, later).1.verified
    ensures var (after, r) := VerifyAndConsume(hash, cfg, keys, sh, token, proof, a, httpMethod, httpPath, now, later);
            && token.PermitToken? && proof.ProofToken? && token.claims.permitID in sh.store.records
            && var id, at := token.claims.permitID, if now < later then later else now;
               && r == VResult(Verified, true, Some(token.claims), Some(Consumed), at)
               && after.store.authorities == sh.store.authorities
               && after.store.records ==
                  sh.store.records[id := sh.store.records[id].(state := Consumed, consumedAt := Some(at))]
               && after.nonces == Spent(sh.nonces, proof, now)
  {
    hide Inspect, TokenAuthentic, ProofHolds, Valid, BindsScalars, Digest, Step, AuthorityHolds, ValidClaims,
      VerifyAndConsume, ProofOutcome, Unspent, InForce;
    CallVerifiedExactlyWhen(hash, cfg, keys, sh, token, proof, a, httpMethod, httpPath, now, later);
    InspectExact(cfg, sh.store, token, Execution, now);
    IssuedAfterZero(cfg, token, Execution);
    ProofPresented(hash, keys, token.claims, proof, a, httpMethod, httpPath, now);
    ChecksExact(hash, keys, token.claims, proof, a, httpMethod, httpPath, now);
    NonceStepExact(hash, keys, token.claims, proof, httpMethod, httpPath, sh.nonces, now);
    InForceExact(sh.store, token.claims);
    AfterChecks(hash, cfg, keys, sh, token, proof, a, httpMethod, httpPath, now, later);
    ConsumptionExact(sh.store, token.claims, now, later);
  }

  /** A permit that expires between the two readings is not consumed: the call answers that it has expired, and the
      store records its expiry. */
  lemma ExpiredMeanwhile(hash: Hash, cfg: Config, keys: map<string, PublicKey>, sh: Shared, token: PermitToken,
                         proof: ProofToken, a: Action, httpMethod: string, httpPath: string, now: Time, later: Time)
    requires Inspect(cfg, sh.store, token, Execution, now).1.outcome == Verified
    requires token.PermitToken? && proof.ProofToken?
    requires ProofOutcome(hash, keys, token.claims, proof, a, httpMethod, httpPath, now) == Verified
    requires Step(sh.nonces, AttemptOf(proof, now)).1 && later >= token.claims.ExpiresTime()
    ensures var (after, r) := VerifyAndConsume(hash, cfg, keys, sh, token, proof, a, httpMethod, httpPath, now, later);
            && r.outcome == PermitExpired && !r.verified && r.state == Some(Expired)
            && token.claims.permitID in sh.store.records
            && after.store == Put(sh.store, token.claims.permitID,
                                  sh.store.records[token.claims.permitID].(
                                    state := Expired, expiredAt := Some(token.claims.ExpiresTime())))
  {
    hide Inspect, TokenAuthentic, Step, AuthorityHolds, ValidClaims, VerifyAndConsume, ProofOutcome;
    InspectExact(cfg, sh.store, token, Execution, now);
    AfterChecks(hash, cfg, keys, sh, token, proof, a, httpMethod, httpPath, now, later);
    IssuedAfterZero(cfg, token, Execution);
    ConsumptionExact(sh.store, token.claims, now, later);
  }

  /** What is left of a call once everything before the consumption has passed. */
  lemma AfterChecks(hash: Hash, cfg: Config, keys: map<string, PublicKey>, sh: Shared, token: PermitToken,
                    proof: ProofToken, a: Action, httpMethod: string, httpPath: string, now: Time, later: Time)
    requires token.PermitToken? && proof.ProofToken?
    requires Inspect(cfg, sh.store, token, Execution, now) ==
             (sh.store, VResult(Verified, false, Some(token.claims), Some(Issued), now))
    requires ProofOutcome(hash, keys, token.claims, proof, a, httpMethod, httpPath, now) == Verified
    requires Step(sh.nonces, AttemptOf(proof, now)).1
    ensures var (store, r) := ConsumeInspected(sh.store, VResult(Verified, true, Some(token.claims), Some(Issued), now),
                                               later);
            VerifyAndConsume(hash, cfg, keys, sh, token, proof, a, httpMethod, httpPath, now, later) ==
            (Shared(store, Step(sh.nonces, AttemptOf(proof, now)).0), r)
  {
    hide Inspect, ProofOutcome, Step, ConsumeInspected;
  }

  /** Consuming an inspected permit succeeds exactly when the second reading is before its expiry and its authority is
      in force, and is recorded at the later of the two readings; otherwise the expiry or the revocation is recorded. */
  lemma ConsumptionExact(s: Store, c: Claims, now: Time, clock: Time)
    requires c.permitID in s.records && s.records[c.permitID].claims == c && s.records[c.permitID].state == Issued
    requires ZERO_TIME < c.IssuedTime() <= now < c.ExpiresTime()
    ensures var r := s.records[c.permitID];
            var at := if now < clock then clock else now;
            forall inspected: VResult | inspected.claims == Some(c) && inspected.verifiedAt == now ::
              ConsumeInspected(s, inspected, clock) ==
              if clock >= c.ExpiresTime() then
                (Put(s, c.permitID, r.(state := Expired, expiredAt := Some(c.ExpiresTime()))),
                 VResult(PermitExpired, false, Some(c), Some(Expired), at))
              else if !AuthorityHolds(s, c) then
                (Put(s, c.permitID, r.(state := State.Revoked, revokedAt := Some(at))),
                 VResult(RevokedPermit, false, Some(c), Some(State.Revoked), at))
              else
                (Put(s, c.permitID, r.(state := Consumed, consumedAt := Some(at))),
                 VResult(Verified, true, Some(c), Some(Consumed), at))
  {
    hide AuthorityHolds;
  }

  lemma IssuedAfterZero(cfg: Config, token: PermitToken, permitClass: PermitClass)
    requires TokenAuthentic(cfg, token, permitClass)
    ensures token.PermitToken? && token.claims.IssuedTime() > ZERO_TIME
  {
    assert token.claims.issuedAt > 0;
  }

  /** A call whose inspection succeeded goes on to its checks, its nonce and its consumption. */
  lemma AfterInspection(hash: Hash, cfg: Config, keys: map<string, PublicKey>, sh: Shared, token: PermitToken,
                        proof: ProofToken, a: Action, httpMethod: string, httpPath: string, now: Time, later: Time)
    requires token.PermitToken?
    requires Inspect(cfg, sh.store, token, Execution, now) ==
             (sh.store, VResult(Verified, false, Some(token.claims), Some(Issued), now))
    ensures VerifyAndConsume(hash, cfg, keys, sh, token, proof, a, httpMethod, httpPath, now, later).1.verified <==>
            && ProofOutcome(hash, keys, token.claims, proof, a, httpMethod, httpPath, now) == Verified
               && proof.ProofToken?
            && Step(sh.nonces, AttemptOf(proof, now)).1
            && var response := Apply(sh.store, Op.Consume(token.claims.permitID, ConsumeTime(now, later))).1;
               response.ConsumeResult? && response.outcome == Succeeded
  {
    hide Inspect, ProofOutcome, ProofHolds, Valid, BindsScalars, Digest, Step, Apply, ConsumeTime;
    ProofPresented(hash, keys, token.claims, proof, a, httpMethod, httpPath, now);
    ConsumeIsAnswered(sh.store, token.claims.permitID, ConsumeTime(now, later));
  }

  lemma ProofPresented(hash: Hash, keys: map<string, PublicKey>, c: Claims, proof: ProofToken, a: Action,
                       httpMethod: string, httpPath: string, now: Time)
    ensures ProofOutcome(hash, keys, c, proof, a, httpMethod, httpPath, now) == Verified ==> proof.ProofToken?
  {
    hide ActionBinding, VerifiesUnder, Thumbprint;
  }

  lemma ConsumeIsAnswered(s: Store, id: string, at: Time)
    ensures Apply(s, Op.Consume(id, at)).1.ConsumeResult?
  {
    hide AuthorityHolds;
  }

  /** A simulation authorizes exactly when its token is an authentic simulation permit, outstanding and inside its
      lifetime at both readings, the action is the one bound, and its authority is in force; and then the permit is
      consumed, at the later reading, and nothing else changes. */
  lemma SimulationVerifiedExactlyWhen(hash: Hash, cfg: Config, s: Store, token: PermitToken, a: Action, now: Time,
                                      later: Time)
    ensures var (after, r) := SimulateAndConsume(hash, cfg, s, token, a, now, later);
            && (r.verified <==>
                && TokenAuthentic(cfg, token, Simulation)
                && var c := token.claims;
                   && InLifetime(s, c, now, later) && InForce(s, c)
                   && Valid(a) && BindsScalars(c, a) && Digest(hash, a) == Ok(c.actionDigest))
            && (r.verified ==>
                  var c, at := token.claims, if now < later then later else now;
                  && r == VResult(Verified, true, Some(c), Some(Consumed), at)
                  && after == Put(s, c.permitID, s.records[c.permitID].(state := Consumed, consumedAt := Some(at))))
  {
    hide Inspect, TokenAuthentic, Valid, BindsScalars, Digest, AuthorityHolds, ValidClaims, ActionBinding,
      ConsumeInspected, InForce;
    InspectExact(cfg, s, token, Simulation, now);
    if Inspect(cfg, s, token, Simulation, now).1.outcome == Verified {
      IssuedAfterZero(cfg, token, Simulation);
      ActionBindingExact(hash, a, token.claims);
      InForceExact(s, token.claims);
      ConsumptionExact(s, token.claims, now, later);
    } else {
      UnverifiedInspection(cfg, s, token, Simulation, now);
    }
  }

  lemma NotInspected(hash: Hash, cfg: Config, keys: map<string, PublicKey>, sh: Shared, token: PermitToken,
                     proof: ProofToken, a: Action, httpMethod: string, httpPath: string, now: Time, later: Time)
    requires Inspect(cfg, sh.store, token, Execution, now).1.outcome != Verified
    ensures !VerifyAndConsume(hash, cfg, keys, sh, token, proof, a, httpMethod, httpPath, now, later).1.verified
  {
    hide Inspect, ProofOutcome;
    UnverifiedInspection(cfg, sh.store, token, Execution, now);
  }

  lemma UnverifiedInspection(cfg: Config, s: Store, token: PermitToken, permitClass: PermitClass, now: Time)
    ensures !Inspect(cfg, s, token, permitClass, now).1.verified
  {
    hide ValidClaims;
  }

  /** Consuming an outstanding permit at a positive time succeeds exactly before its expiry and under its authority. */
  lemma SucceedsBeforeExpiry(s: Store, c: Claims, at: Time)
    requires c.permitID in s.records && s.records[c.permitID].claims == c && s.records[c.permitID].state == Issued
      && at > ZERO_TIME
    ensures var response := Apply(s, Op.Consume(c.permitID, at)).1;
            && response.ConsumeResult?
            && (response.outcome == Succeeded <==> at < c.ExpiresTime() && AuthorityHolds(s, c))
  {
    hide AuthorityHolds;
  }

  /** The action digest, computed by the canonical writer. */
  method ComputeDigest(hash: Hash, a: Action) returns (r: Result<string, ActionError>)
    ensures r == Digest(hash, a)
  {
    hide Valid;
    var valid := ValidateAction(a);
    if !valid {
      return Err(InvalidAction);
    }
    var arguments := ParseArguments(a.arguments);
    if arguments.Err? {
      return Err(BadArguments(arguments.error));
    }
    var output := new Codec.Buffer();
    Codec.WriteCanonicalJSON(output, ActionValue(a, arguments.value));
    assert output.text == Canonical.Print(ActionValue(a, arguments.value));
    return Ok("sha256:" + hash(Utf8.Encode(output.text)));
  }

  method ActionBindingOutcome(hash: Hash, a: Action, c: Claims) returns (outcome: Outcome)
    ensures outcome == ActionBinding(hash, a, c)
  {
    hide Valid, Digest;
    var valid := ValidateAction(a);
    if !valid { return InvalidActionOutcome; }
    if a.principalID != c.principalID { return WrongPrincipal; }
    if a.agentID != c.agentID { return WrongAgent; }
    if a.workloadID != c.workloadID { return WrongWorkload; }
    if a.delegation != c.delegation { return WrongDelegation; }
    if a.tool != c.tool { return WrongTool; }
    if a.capability != c.capability { return WrongCapability; }
    if a.resource != c.resource { return WrongResource; }
    if a.operation != c.operation { return WrongOperation; }
    if a.profileID != c.profileID { return WrongProfile; }
    if a.audience != c.audience { return WrongAudience; }
    if a.executionBinding != c.executionBinding { return WrongExecutionBinding; }
    var digest := ComputeDigest(hash, a);
    if digest.Err? { return InvalidActionOutcome; }
    return if digest.value == c.actionDigest then Verified else ActionMismatch;
  }

  class Verifier {
    const cfg: Config
    const hash: Hash
    const store: MemoryStore
    const workloadKeys: Registry
    const proofNonces: NonceStore

    constructor (cfg: Config, hash: Hash, store: MemoryStore)
      ensures this.cfg == cfg && this.hash == hash && this.store == store
      ensures fresh(workloadKeys) && fresh(proofNonces) && workloadKeys.keys == map[] && proofNonces.expires == map[]
    {
      this.cfg, this.hash, this.store := cfg, hash, store;
      workloadKeys := new Registry();
      proofNonces := new NonceStore();
    }

    function Value(): Shared
      reads store, proofNonces
    {
      Shared(store.Value(), proofNonces.expires)
    }

    method InspectPermit(token: PermitToken, permitClass: PermitClass, now: Time) returns (result: VResult)
      modifies store
      ensures (store.Value(), result) == Inspect(cfg, old(store.Value()), token, permitClass, now)
    {
      hide ValidClaims;
      result := VResult(InvalidSignature, false, None, None, now);
      if token.NoToken? || token.keyID !in cfg.signingKeys || token.signer != cfg.signingKeys[token.keyID] {
        return;
      }
      var claims := token.claims;
      var valid := ValidateClaims(claims);
      if !token.decodes || !valid || claims.signingKeyID != token.keyID {
        result := result.(outcome := InvalidPermit);
        return;
      }
      result := result.(claims := Some(claims));
      if claims.permitClass != permitClass {
        result := result.(outcome := WrongPermitClass);
        return;
      }
      if claims.issuer != cfg.issuer {
        result := result.(outcome := InvalidIssuer);
        return;
      }
      var record := store.Get(claims.permitID, now);
      if record.None? {
        result := result.(outcome := UnknownPermitID);
        return;
      }
      result := result.(state := Some(record.value.state));
      if record.value.claims != claims {
        result := result.(outcome := InvalidPermit);
        return;
      }
      if now < claims.IssuedTime() {
        result := result.(outcome := NotYetValid);
        return;
      }
      match record.value.state
      case Expired => result := result.(outcome := PermitExpired);
      case Consumed => result := result.(outcome := ReplayedPermit);
      case Revoked => result := result.(outcome := RevokedPermit);
      case Issued => result := result.(outcome := Verified);
    }

    method CheckProof(c: Claims, proof: ProofToken, a: Action, httpMethod: string, httpPath: string, now: Time)
      returns (outcome: Outcome)
      ensures outcome == ProofOutcome(hash, workloadKeys.keys, c, proof, a, httpMethod, httpPath, now)
    {
      hide ValidKeyID, ValidProof, ActionBinding;
      if c.executorKeyThumbprint == "" { return InvalidPermit; }
      if proof.Malformed? { return WrongExecutor; }
      var named := ValidateKeyID(proof.keyID);
      if !named || proof.keyID !in workloadKeys.keys { return WrongExecutor; }
      var publicKey := workloadKeys.keys[proof.keyID];
      var valid := ValidateProof(proof.claims);
      if proof.signer != publicKey || !valid { return WrongExecutor; }
      if proof.keyID != c.executorKeyID || Thumbprint(hash, publicKey) != c.executorKeyThumbprint {
        return WrongExecutor;
      }
      if proof.claims.permitID != c.permitID || proof.claims.actionDigest != c.actionDigest
         || proof.claims.httpMethod != httpMethod || proof.claims.httpPath != httpPath {
        return WrongExecutor;
      }
      var issuedAt := proof.claims.issuedAt * SECOND;
      if issuedAt > now + PROOF_SKEW * SECOND || now - issuedAt > PROOF_MAX_AGE * SECOND { return WrongExecutor; }
      outcome := ActionBindingOutcome(hash, a, c);
      if outcome != Verified { return; }
      if c.obligations != NO_OBLIGATIONS { return UnsatisfiedObligation; }
    }

    method VerifyExecutionProof(token: PermitToken, proof: ProofToken, a: Action, httpMethod: string, httpPath: string,
                                now: Time)
      returns (result: VResult)
      modifies store, proofNonces
      ensures (Value(), result) ==
        VerifyProof(hash, cfg, workloadKeys.keys, old(Value()), token, proof, a, httpMethod, httpPath, now)
    {
      hide ProofOutcome, Inspect;
      result := InspectPermit(token, Execution, now);
      if result.outcome != Verified || result.claims.None? {
        return;
      }
      var outcome := CheckProof(result.claims.value, proof, a, httpMethod, httpPath, now);
      if outcome != Verified || proof.Malformed? {
        result := result.(outcome := outcome);
        return;
      }
      var first := proofNonces.UseNonce(proof.keyID, proof.claims.nonce, UnixSeconds(now),
                                        proof.claims.issuedAt + PROOF_MAX_AGE + PROOF_SKEW);
      result := if first then result.(verified := true) else result.(outcome := WrongExecutor);
    }

    method ConsumeChecked(inspected: VResult, clock: Time) returns (result: VResult)
      requires inspected.claims.Some?
      modifies store
      ensures (store.Value(), result) == ConsumeInspected(old(store.Value()), inspected, clock)
      ensures result.verifiedAt == if inspected.verifiedAt < clock then clock else inspected.verifiedAt
      ensures result.verified ==>
                var id := inspected.claims.value.permitID;
                id in store.records && store.records[id].consumedAt == Some(result.verifiedAt)
    {
      var consumeTime := clock;
      if consumeTime < inspected.verifiedAt {
        consumeTime := inspected.verifiedAt;
      }
      var outcome, record := store.Consume(inspected.claims.value.permitID, consumeTime);
      result := inspected.(verified := false, verifiedAt := consumeTime,
                           state := if record.Some? then Some(record.value.state) else None);
      match outcome
      case Succeeded => result := result.(outcome := Verified, verified := true);
      case WasExpired => result := result.(outcome := PermitExpired);
      case Replayed => result := result.(outcome := ReplayedPermit);
      case WasRevoked => result := result.(outcome := RevokedPermit);
      case UnknownPermit => result := result.(outcome := UnknownPermitID);
    }

    /** The sole consumption entry for execution permits; the two readings are the clock's. */
    method VerifyExecutionAndConsume(token: PermitToken, proof: ProofToken, a: Action, httpMethod: string,
                                     httpPath: string,
                                     now: Time, later: Time) returns (result: VResult)
      modifies store, proofNonces
      ensures (Value(), result) ==
              VerifyAndConsume(hash, cfg, workloadKeys.keys, old(Value()), token, proof, a, httpMethod, httpPath, now,
                               later)
    {
      hide VerifyProof, ConsumeInspected;
      result := VerifyExecutionProof(token, proof, a, httpMethod, httpPath, now);
      if result.outcome != Verified || result.claims.None? {
        return;
      }
      result := ConsumeChecked(result, later);
    }

    /** A diagnostic check: it never authorizes execution. */
    method CheckExecution(token: PermitToken, a: Action, now: Time) returns (result: VResult)
      modifies store
      ensures store.Value() == Inspect(cfg, old(store.Value()), token, Execution, now).0
      ensures var inspected := Inspect(cfg, old(store.Value()), token, Execution, now).1;
              result == if inspected.outcome != Verified || inspected.claims.None? then inspected
                        else var outcome := ActionBinding(hash, a, inspected.claims.value);
                             inspected.(outcome := if outcome == Verified then ValidNotConsumed else outcome)
      ensures !result.verified
    {
      hide ActionBinding;
      result := InspectPermit(token, Execution, now);
      if result.outcome != Verified || result.claims.None? {
        return;
      }
      var outcome := ActionBindingOutcome(hash, a, result.claims.value);
      result := result.(outcome := if outcome == Verified then ValidNotConsumed else outcome);
    }

    /** The isolated path of server-owned simulations: no proof, and only simulation permits. */
    method VerifySimulationAndConsume(token: PermitToken, a: Action, now: Time, later: Time) returns (result: VResult)
      modifies store
      ensures result.verified
        ==> result.outcome == Verified && result.claims.Some? && result.claims.value.permitClass == Simulation
      ensures (store.Value(), result) == SimulateAndConsume(hash, cfg, old(store.Value()), token, a, now, later)
    {
      hide ActionBinding;
      result := InspectPermit(token, Simulation, now);
      if result.outcome != Verified || result.claims.None? {
        return;
      }
      var outcome := ActionBindingOutcome(hash, a, result.claims.value);
      if outcome != Verified {
        result := result.(outcome := outcome);
        return;
      }
      result := ConsumeChecked(result, later);
    }
  }
}
