/**
  Permit issuance (internal/permit/issuer.go) and the lifetime rules that lead to it
  (internal/router/router.go).  Durations are integers counting nanoseconds.
 */
module Issuer {
  import opened Wrappers
  import opened CanonicalAction
  import opened Permits
  import Utf8

  const MILLISECOND := 1_000_000
  const DEFAULT_TTL := 30 * SECOND
  const MAX_TTL := 15 * 60 * SECOND

  // ---------------------------------------------------------------- lifetime

  /** The router's permit lifetime, from the configured number of seconds. */
  function ConfiguredTTL(ttlSeconds: int): int {
    if ttlSeconds <= 0 then DEFAULT_TTL else if ttlSeconds * SECOND > MAX_TTL then MAX_TTL else ttlSeconds * SECOND
  }

  /** What bounds one permit: a shorter lifetime asked for by a fixture, the grant's maximum in
      milliseconds, and the expiry of the delegated authority.  Zero and None do not bound. */
  datatype Limits = Limits(shorter: int, maxDurationMS: int, delegatedExpiry: Option<Time>)

  function Min(a: int, b: int): int { if a < b then a else b }

  /** Truncate toward zero to whole seconds. */
  function WholeSeconds(d: int): int { if d < 0 then -(-d / SECOND * SECOND) else d / SECOND * SECOND }

  /** The lifetime issuePermit asks for, or None when it is shorter than a second. */
  function RequestedTTL(ttlSeconds: int, limits: Limits, started: Time): Option<int> {
    var configured := ConfiguredTTL(ttlSeconds);
    var asked := if limits.shorter > 0 then Min(limits.shorter, configured) else configured;
    var granted := if limits.maxDurationMS > 0 then Min(limits.maxDurationMS * MILLISECOND, asked) else asked;
    var delegated := if limits.delegatedExpiry.Some? then Min(limits.delegatedExpiry.value - started, granted)
                     else granted;
    var ttl := WholeSeconds(delegated);
    if ttl < SECOND then None else Some(ttl)
  }

  /** Issue's own rule: whole seconds between one second and fifteen minutes. */
  predicate ValidTTL(ttl: int) { SECOND <= ttl <= MAX_TTL && ttl % SECOND == 0 }

  // ---------------------------------------------------------------- claims

  datatype Workload = Workload(keyID: string, thumbprint: string)

  /** What policy, the issuer and its clock contribute to a permit. */
  datatype IssueTerms = IssueTerms(
    permitID: string,
    signingKeyID: string,
    policyVersion: string,
    obligations: Obligations,
    now: Time)

  function ClaimsFor(issuer: string, permitClass: PermitClass, requestID: string, workload: Workload, a: Action,
                     digest: string, epoch: nat, terms: IssueTerms, ttl: int): Claims {
    Claims(terms.permitID, terms.signingKeyID, permitClass, requestID, a.principalID, a.agentID, a.workloadID,
           workload.keyID, workload.thumbprint, a.delegation, a.tool, a.capability, a.resource, a.operation,
           a.profileID, a.audience, digest, a.executionBinding, epoch, terms.policyVersion, terms.obligations,
           issuer, UnixSeconds(terms.now), UnixSeconds(terms.now) + ttl / SECOND, true)
  }

  /** The claims say what was asked for: the action field by field, the workload, the digest, the epoch and the terms,
      from the second of the clock reading on, for the whole lifetime and for one use. */
  predicate Says(c: Claims, issuer: string, permitClass: PermitClass, requestID: string, workload: Workload, a: Action,
                 digest: string, epoch: nat, terms: IssueTerms, ttl: int)
  {
    && c.permitID == terms.permitID && c.signingKeyID == terms.signingKeyID && c.permitClass == permitClass
    && c.requestID == requestID && c.executorKeyID == workload.keyID && c.executorKeyThumbprint == workload.thumbprint
    && c.principalID == a.principalID && c.agentID == a.agentID && c.workloadID == a.workloadID
    && c.delegation == a.delegation && c.tool == a.tool && c.capability == a.capability && c.resource == a.resource
    && c.operation == a.operation && c.profileID == a.profileID && c.audience == a.audience
    && c.executionBinding == a.executionBinding && c.actionDigest == digest && c.authorityEpoch == epoch
    && c.policyVersion == terms.policyVersion && c.obligations == terms.obligations && c.issuer == issuer
    && c.issuedAt * 1_000_000_000 <= terms.now < (c.issuedAt + 1) * 1_000_000_000
    && (c.expiresAt - c.issuedAt) * 1_000_000_000 == ttl && c.singleUse
  }

  /** What the caller of the issuer must bring besides a valid action and its digest. */
  predicate Issuable(issuer: string, permitClass: PermitClass, requestID: string, workload: Workload, a: Action,
                     epoch: nat, terms: IssueTerms)
  {
    && Required(terms.permitID, 160) && Required(requestID, 160) && Required(terms.policyVersion, 512)
    && Required(issuer, 512) && ValidKeyID(terms.signingKeyID) && terms.now >= 1_000_000_000
    && match permitClass
       case Execution =>
         ValidKeyID(workload.keyID) && IsDigest(workload.thumbprint) && (a.executionBinding != "" <==> epoch != 0)
       case Simulation => workload == Workload("", "") && a.executionBinding == "" && epoch == 0
       case Unknown(_) => false
  }

  lemma KeyIDIsText(s: string)
    requires ValidKeyID(s)
    ensures Required(s, 128)
  {
    hide Utf8.Encode;
  }

  /** No valid action is refused: claims about it are valid exactly when the rest is. */
  lemma ValidExactlyWhenIssuable(issuer: string, permitClass: PermitClass, requestID: string, workload: Workload,
                                 a: Action, digest: string, epoch: nat, terms: IssueTerms, ttl: int)
    requires Valid(a) && IsDigest(digest) && ttl >= 1_000_000_000
    ensures ValidClaims(ClaimsFor(issuer, permitClass, requestID, workload, a, digest, epoch, terms, ttl)) <==>
            Issuable(issuer, permitClass, requestID, workload, a, epoch, terms)
  {
    hide BoundedText, IsDigest, ValidKeyID;
    if ValidKeyID(terms.signingKeyID) {
      KeyIDIsText(terms.signingKeyID);
    }
  }

  datatype IssueError = BadLifetime | StoreRefused(error: StoreError)

  class PermitIssuer {
    const name: string
    const store: MemoryStore

    constructor (name: string, store: MemoryStore)
      ensures this.name == name && this.store == store
    {
      this.name, this.store := name, store;
    }

    /** Claims are built, validated and registered in one call; a zero lifetime means the default. */
    method Issue(permitClass: PermitClass, requestID: string, workload: Workload, a: Action, digest: string, epoch: nat,
                 terms: IssueTerms, asked: int) returns (r: Result<Claims, IssueError>)
      modifies store
      ensures var ttl := if asked == 0 then DEFAULT_TTL else asked;
              var c := ClaimsFor(name, permitClass, requestID, workload, a, digest, epoch, terms, ttl);
              var (after, response) := Apply(old(store.Value()), Op.Register(c));
              if !ValidTTL(ttl) then r == Err(BadLifetime) && store.Value() == old(store.Value())
              else store.Value() == after && r == if response == Registered then Ok(c)
                else Err(StoreRefused(response.error))
      ensures r.Ok? ==>
                var c, ttl := r.value, if asked == 0 then 30_000_000_000 else asked;
                && Says(c, name, permitClass, requestID, workload, a, digest, epoch, terms, ttl)
                && 1_000_000_000 <= ttl <= 900_000_000_000 && ValidClaims(c)
                && store.authorities == old(store.authorities) && c.permitID !in old(store.records)
                && store.records == old(store.records)[c.permitID := Record(c, Issued, None, None, None)]
                && InForce(old(store.Value()), c)
      ensures var ttl := if asked == 0 then 30_000_000_000 else asked;
              var c := ClaimsFor(name, permitClass, requestID, workload, a, digest, epoch, terms, ttl);
              r.Ok? <==>
              && 1_000_000_000 <= ttl <= 900_000_000_000 && ttl % 1_000_000_000 == 0
              && ValidClaims(c) && terms.permitID !in old(store.records) && InForce(old(store.Value()), c)
      ensures r.Err? ==> store.Value() == old(store.Value())
    {
      hide ValidClaims, AuthorityHolds, InForce;
      var ttl := asked;
      if ttl == 0 {
        ttl := DEFAULT_TTL;
      }
      if ttl < SECOND || ttl > MAX_TTL || ttl % SECOND != 0 {
        return Err(BadLifetime);
      }
      var c := ClaimsFor(name, permitClass, requestID, workload, a, digest, epoch, terms, ttl);
      var valid := ValidateClaims(c);
      if !valid {
        return Err(StoreRefused(InvalidClaims));
      }
      RegisterExact(store.Value(), c);
      var error := store.Register(c);
      if error.Some? {
        return Err(StoreRefused(error.value));
      }
      return Ok(c);
    }
  }

  // ---------------------------------------------------------------- every permit's lifetime

  /** A lifetime in whole seconds that every limit allows: at most 900 seconds and the configured number, which is 30
      when none is configured. */
  predicate Allowed(seconds: int, ttlSeconds: int, limits: Limits, started: Time) {
    && 1 <= seconds <= 900 && seconds <= (if ttlSeconds <= 0 then 30 else ttlSeconds)
    && (limits.shorter > 0 ==> seconds * 1_000_000_000 <= limits.shorter)
    && (limits.maxDurationMS > 0 ==> seconds * 1_000 <= limits.maxDurationMS)
    && (limits.delegatedExpiry.Some? ==> started + seconds * 1_000_000_000 <= limits.delegatedExpiry.value)
  }

  lemma WholeSecondsFloor(d: int, seconds: int)
    requires d >= 0
    ensures WholeSeconds(d) % SECOND == 0 && (seconds * SECOND <= d <==> seconds * SECOND <= WholeSeconds(d))
  {
  }

  lemma ShortIsNone(d: int)
    requires d < SECOND
    ensures WholeSeconds(d) < SECOND
  {
  }

  /** The permit gets the longest lifetime in whole seconds that every limit allows, and issuance
      fails exactly when not even one second is allowed. */
  lemma LongestAllowedLifetime(ttlSeconds: int, limits: Limits, started: Time, seconds: int)
    ensures var ttl := RequestedTTL(ttlSeconds, limits, started);
            && (ttl.Some? ==> ttl.value % 1_000_000_000 == 0
                              && Allowed(ttl.value / 1_000_000_000, ttlSeconds, limits, started))
            && (Allowed(seconds, ttlSeconds, limits, started) ==> ttl.Some? && seconds * 1_000_000_000 <= ttl.value)
  {
    hide WholeSeconds;
    var configured := ConfiguredTTL(ttlSeconds);
    var asked := if limits.shorter > 0 then Min(limits.shorter, configured) else configured;
    var granted := if limits.maxDurationMS > 0 then Min(limits.maxDurationMS * MILLISECOND, asked) else asked;
    var delegated := if limits.delegatedExpiry.Some? then Min(limits.delegatedExpiry.value - started, granted)
                     else granted;
    if delegated < SECOND {
      ShortIsNone(delegated);
    } else {
      WholeSecondsFloor(delegated, seconds);
      WholeSecondsFloor(delegated, WholeSeconds(delegated) / SECOND);
    }
  }

  /** A whole number of seconds between 1 and 900, at most the configured number (30 when none is), the fixture's and
      the grant's maximum; the permit outlives the delegated authority by no more than the time that passed between the
      start of authorization and the whole second in which it was issued. */
  predicate LivesWithin(c: Claims, ttlSeconds: int, limits: Limits, started: Time) {
    && 1 <= c.expiresAt - c.issuedAt <= 900 && c.expiresAt - c.issuedAt <= (if ttlSeconds <= 0 then 30 else ttlSeconds)
    && (limits.shorter > 0 ==> (c.expiresAt - c.issuedAt) * 1_000_000_000 <= limits.shorter)
    && (limits.maxDurationMS > 0 ==> (c.expiresAt - c.issuedAt) * 1_000 <= limits.maxDurationMS)
    && (limits.delegatedExpiry.Some? ==> c.expiresAt * 1_000_000_000 - limits.delegatedExpiry.value
                                         <= c.issuedAt * 1_000_000_000 - started)
  }

  /** Claims built with the requested lifetime keep to every limit and are dated by the issuer's reading. */
  lemma PermitLifetime(issuer: string, permitClass: PermitClass, requestID: string, workload: Workload, a: Action,
                       digest: string, epoch: nat, terms: IssueTerms, ttl: int, ttlSeconds: int, limits: Limits,
                       started: Time)
    requires RequestedTTL(ttlSeconds, limits, started) == Some(ttl)
    ensures var c := ClaimsFor(issuer, permitClass, requestID, workload, a, digest, epoch, terms, ttl);
            LivesWithin(c, ttlSeconds, limits, started) && c.IssuedTime() <= terms.now < c.IssuedTime() + SECOND
  {
    LongestAllowedLifetime(ttlSeconds, limits, started, 1);
  }
}
