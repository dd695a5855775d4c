/**
  Permit claims and the permit store (internal/permit/claims.go, store.go, authority.go).

  Each store method holds the mutex throughout, so it is one atomic step; Apply gives that
  step as a function of the store's value, and class MemoryStore performs it in place.
  Times are integers counting nanoseconds from the Unix epoch.
 */
module Permits {
  import opened Wrappers
  import opened CanonicalAction
  import Canonical
  import Utf8

  type Time = int

  const SECOND := 1_000_000_000

  /** The zero time.Time, 1 January of year 1. */
  const ZERO_TIME: Time := -62_135_596_800 * SECOND

  const MAX_UINT64 := 0xFFFF_FFFF_FFFF_FFFF

  /** Time.Unix: whole seconds, rounded down. */
  function UnixSeconds(t: Time): int { t / SECOND }

  // ---------------------------------------------------------------- claims

  datatype PermitClass = Execution | Simulation | Unknown(name: string)

  datatype Obligations = Obligations(isolation: bool, noEgress: bool, readOnly: bool, approval: bool, audit: bool)

  const NO_OBLIGATIONS := Obligations(false, false, false, false, false)

  datatype AuthorityKey = AuthorityKey(principalID: string, agentID: string, workloadID: string)

  datatype Claims = Claims(
    permitID: string,
    signingKeyID: string,
    permitClass: PermitClass,
    requestID: string,
    principalID: string,
    agentID: string,
    workloadID: string,
    executorKeyID: string,
    executorKeyThumbprint: string,
    delegation: string,
    tool: string,
    capability: string,
    resource: string,
    operation: string,
    profileID: string,
    audience: string,
    actionDigest: string,
    executionBinding: string,
    authorityEpoch: nat,
    policyVersion: string,
    obligations: Obligations,
    issuer: string,
    issuedAt: int,
    expiresAt: int,
    singleUse: bool)
  {
    function Domain(): AuthorityKey { AuthorityKey(principalID, agentID, workloadID) }

    function IssuedTime(): Time { issuedAt * SECOND }

    function ExpiresTime(): Time { expiresAt * SECOND }
  }

  predicate IsKeyIDChar(c: char) {
    'a' <= c <= 'z' || 'A' <= c <= 'Z' || '0' <= c <= '9' || c == '.' || c == '_' || c == ':' || c == '-'
  }

  /** keyprovider.ValidateKeyID. */
  predicate ValidKeyID(s: string) {
    s != "" && Utf8.Size(s) <= 128 && forall i | 0 <= i < |s| :: IsKeyIDChar(s[i])
  }

  predicate Required(s: string, limit: nat) { s != "" && BoundedText(s, limit) }

  predicate ValidClaims(c: Claims) {
    && (c.executionBinding != "" <==> c.authorityEpoch != 0)
    && (c.executionBinding != "" ==> IsDigest(c.executionBinding) && c.permitClass == Execution)
    && !c.permitClass.Unknown?
    && (c.profileID == "" <==> c.audience == "")
    && BoundedText(c.profileID, 256) && BoundedText(c.audience, 1024)
    && Required(c.permitID, 160) && Required(c.signingKeyID, 128) && Required(c.requestID, 160)
    && Required(c.principalID, 512) && Required(c.agentID, 512) && Required(c.workloadID, 512)
    && Required(c.tool, 512) && Required(c.capability, 512) && Required(c.resource, 2048)
    && Required(c.operation, 512) && Required(c.policyVersion, 512) && Required(c.issuer, 512)
    && ValidKeyID(c.signingKeyID)
    && (c.delegation != "" ==> IsDigest(c.delegation))
    && (c.permitClass == Execution ==> ValidKeyID(c.executorKeyID) && IsDigest(c.executorKeyThumbprint))
    && (c.permitClass == Simulation ==> c.executorKeyID == "" && c.executorKeyThumbprint == "")
    && IsDigest(c.actionDigest)
    && 0 < c.issuedAt < c.expiresAt
    && c.singleUse
  }

  method ValidateKeyID(s: string) returns (ok: bool)
    ensures ok <==> ValidKeyID(s)
  {
    if s == "" || Utf8.Size(s) > 128 {
      return false;
    }
    var i := 0;
    while i < |s|
      invariant i <= |s|
      invariant forall j | 0 <= j < i :: IsKeyIDChar(s[j])
    {
      if !('a' <= s[i] <= 'z' || 'A' <= s[i] <= 'Z' || '0' <= s[i] <= '9' || s[i] in "._:-") {
        return false;
      }
      i := i + 1;
    }
    return true;
  }

  /** Claims.Validate. */
  method ValidateClaims(c: Claims) returns (ok: bool)
    ensures ok <==> ValidClaims(c)
  {
    hide BoundedText, IsDigest, ValidKeyID;
    if (c.executionBinding != "") != (c.authorityEpoch != 0) {
      return false;
    }
    if c.executionBinding != "" && (!IsDigest(c.executionBinding) || c.permitClass != Execution) {
      return false;
    }
    if c.permitClass.Unknown? {
      return false;
    }
    if (c.profileID == "") != (c.audience == "") {
      return false;
    }
    var profile := CheckText(c.profileID, 256);
    var audience := CheckText(c.audience, 1024);
    var fields := ValidateFields(c);
    if !profile || !audience || !fields {
      return false;
    }
    var signer := ValidateKeyID(c.signingKeyID);
    if !signer || (c.delegation != "" && !IsDigest(c.delegation)) {
      return false;
    }
    match c.permitClass {
      case Execution =>
        var executor := ValidateKeyID(c.executorKeyID);
        if !executor || !IsDigest(c.executorKeyThumbprint) {
          return false;
        }
      case _ =>
        if c.executorKeyID != "" || c.executorKeyThumbprint != "" {
          return false;
        }
    }
    return IsDigest(c.actionDigest) && c.issuedAt > 0 && c.expiresAt > c.issuedAt && c.singleUse;
  }

  /** The table of required claims. */
  method ValidateFields(c: Claims) returns (ok: bool)
    ensures ok <==>
            && Required(c.permitID, 160) && Required(c.signingKeyID, 128) && Required(c.requestID, 160)
            && Required(c.principalID, 512) && Required(c.agentID, 512) && Required(c.workloadID, 512)
            && Required(c.tool, 512) && Required(c.capability, 512) && Required(c.resource, 2048)
            && Required(c.operation, 512) && Required(c.policyVersion, 512) && Required(c.issuer, 512)
  {
    hide BoundedText;
    var fields := [(c.permitID, 160), (c.signingKeyID, 128), (c.requestID, 160), (c.principalID, 512),
                   (c.agentID, 512), (c.workloadID, 512), (c.tool, 512), (c.capability, 512), (c.resource, 2048),
                   (c.operation, 512), (c.policyVersion, 512), (c.issuer, 512)];
    ok := CheckFields(fields);
    assert fields[0] == (c.permitID, 160) && fields[1] == (c.signingKeyID, 128) && fields[2] == (c.requestID, 160);
    assert fields[3] == (c.principalID, 512) && fields[4] == (c.agentID, 512) && fields[5] == (c.workloadID, 512);
    assert fields[6] == (c.tool, 512) && fields[7] == (c.capability, 512) && fields[8] == (c.resource, 2048);
    assert fields[9] == (c.operation, 512) && fields[10] == (c.policyVersion, 512) && fields[11] == (c.issuer, 512);
  }

  // ---------------------------------------------------------------- store values

  datatype State = Issued | Consumed | Expired | Revoked

  datatype Record = Record(
    claims: Claims,
    state: State,
    consumedAt: Option<Time>,
    expiredAt: Option<Time>,
    revokedAt: Option<Time>)

  datatype AuthorityState = AuthorityState(epoch: nat, enabled: bool)

  datatype Store = Store(records: map<string, Record>, authorities: map<AuthorityKey, AuthorityState>)

  const EMPTY_STORE := Store(map[], map[])

  datatype StoreError = InvalidClaims | PermitExists | PermitNotFound | PermitNotActive | AuthorityChanged
    | InvalidTransition

  datatype ConsumeOutcome = Succeeded | WasExpired | Replayed | WasRevoked | UnknownPermit

  // ---------------------------------------------------------------- steps

  datatype Op =
    | Register(claims: Claims)
    | Get(id: string, now: Time)
    | List(now: Time)
    | Consume(id: string, now: Time)
    | Revoke(id: string, now: Time)
    | SetAuthority(key: AuthorityKey, enabled: bool, now: Time)
    | ReadAuthority(key: AuthorityKey)

  datatype Response =
    | Registered
    | Found(record: Record)
    | NotFound
    | Listed(records: map<string, Record>)
    | ConsumeResult(outcome: ConsumeOutcome, consumed: Option<Record>)
    | RevokedRecord(revoked: Record)
    | Authority(authority: AuthorityState)
    | Refused(error: StoreError)

  /** authorityLocked: a key never touched is enabled at epoch 1. */
  function AuthorityOf(s: Store, key: AuthorityKey): AuthorityState {
    if key in s.authorities then s.authorities[key] else AuthorityState(1, true)
  }

  /** The authority of a permit still is the one it was registered under. */
  predicate AuthorityHolds(s: Store, c: Claims) {
    c.executionBinding != "" ==>
      AuthorityOf(s, c.Domain()).enabled && AuthorityOf(s, c.Domain()).epoch == c.authorityEpoch
  }

  function ExpireIfNeeded(r: Record, now: Time): Record {
    if r.state != Issued || now == ZERO_TIME then r
    else if now >= r.claims.ExpiresTime() then r.(state := Expired, expiredAt := Some(r.claims.ExpiresTime()))
    else r
  }

  function Put(s: Store, id: string, r: Record): Store { s.(records := s.records[id := r]) }

  function ApplyRegister(s: Store, c: Claims): (Store, Response) {
    if !ValidClaims(c) then (s, Refused(InvalidClaims))
    else if c.permitID in s.records then (s, Refused(PermitExists))
    else if !AuthorityHolds(s, c) then (s, Refused(AuthorityChanged))
    else (Put(s, c.permitID, Record(c, Issued, None, None, None)), Registered)
  }

  function ApplyConsume(s: Store, id: string, now: Time): (Store, Response) {
    if id !in s.records then (s, ConsumeResult(UnknownPermit, None))
    else
      var r := ExpireIfNeeded(s.records[id], now);
      match r.state
      case Issued =>
        if !AuthorityHolds(s, r.claims) then
          var revoked := r.(state := Revoked, revokedAt := Some(now));
          (Put(s, id, revoked), ConsumeResult(WasRevoked, Some(revoked)))
        else
          var consumed := r.(state := Consumed, consumedAt := Some(now));
          (Put(s, id, consumed), ConsumeResult(Succeeded, Some(consumed)))
      case Consumed => (s, ConsumeResult(Replayed, Some(r)))
      case Expired => (Put(s, id, r), ConsumeResult(WasExpired, Some(r)))
      case Revoked => (s, ConsumeResult(WasRevoked, Some(r)))
  }

  function ApplyRevoke(s: Store, id: string, now: Time): (Store, Response) {
    if id !in s.records then (s, Refused(PermitNotFound))
    else
      var r := ExpireIfNeeded(s.records[id], now);
      if r.state != Issued then (Put(s, id, r), Refused(PermitNotActive))
      else
        var revoked := r.(state := Revoked, revokedAt := Some(now));
        (Put(s, id, revoked), RevokedRecord(revoked))
  }

  predicate Outstanding(r: Record, key: AuthorityKey) {
    r.state == Issued && r.claims.permitClass == Execution && r.claims.Domain() == key
  }

  function RevokeIfOutstanding(r: Record, key: AuthorityKey, now: Time): Record {
    if Outstanding(r, key) then r.(state := Revoked, revokedAt := Some(now)) else r
  }

  predicate ValidAuthorityKey(key: AuthorityKey) {
    Required(key.principalID, 512) && Required(key.agentID, 512) && Required(key.workloadID, 512)
  }

  function ApplySetAuthority(s: Store, key: AuthorityKey, enabled: bool, now: Time): (Store, Response) {
    if !ValidAuthorityKey(key) || now == ZERO_TIME || AuthorityOf(s, key).epoch == MAX_UINT64
    then (s, Refused(InvalidTransition))
    else
      var next := AuthorityState(AuthorityOf(s, key).epoch + 1, enabled);
      (Store(map id | id in s.records :: RevokeIfOutstanding(s.records[id], key, now), s.authorities[key := next]),
       Authority(next))
  }

  function Apply(s: Store, op: Op): (Store, Response) {
    match op
    case Register(c) => ApplyRegister(s, c)
    case Get(id, now) =>
      if id !in s.records then (s, NotFound)
      else var r := ExpireIfNeeded(s.records[id], now); (Put(s, id, r), Found(r))
    case List(now) =>
      var records := map id | id in s.records :: ExpireIfNeeded(s.records[id], now);
      (s.(records := records), Listed(records))
    case Consume(id, now) => ApplyConsume(s, id, now)
    case Revoke(id, now) => ApplyRevoke(s, id, now)
    case SetAuthority(key, enabled, now) => ApplySetAuthority(s, key, enabled, now)
    case ReadAuthority(key) => (s, Authority(AuthorityOf(s, key)))
  }

  // ---------------------------------------------------------------- what a transition does

  /** A name of an authority: not empty, at most 512 bytes, and free of control characters. */
  predicate PlainName(s: string) {
    s != "" && |Utf8.Encode(s)| <= 512 && forall i | 0 <= i < |s| :: ' ' <= s[i] && !('\U{7F}' <= s[i] <= '\U{9F}')
  }

  /** When a transition is accepted, whichever way it goes. */
  predicate TransitionAllowed(s: Store, key: AuthorityKey, now: Time) {
    && PlainName(key.principalID) && PlainName(key.agentID) && PlainName(key.workloadID)
    && now != -62_135_596_800_000_000_000
    && (key in s.authorities ==> s.authorities[key].epoch != 0xFFFF_FFFF_FFFF_FFFF)
  }

  /** Every outstanding execution permit of the authority is revoked at this time, and nothing else about it
      changes; every other record stays as it is. */
  predicate EndsPermits(s: Store, t: Store, key: AuthorityKey, now: Time) {
    && t.records.Keys == s.records.Keys
    && forall id | id in s.records ::
         var r, r' := s.records[id], t.records[id];
         if r.state == Issued && r.claims.permitClass == Execution && r.claims.principalID == key.principalID
            && r.claims.agentID == key.agentID && r.claims.workloadID == key.workloadID
         then r' == Record(r.claims, State.Revoked, r.consumedAt, r.expiredAt, Some(now))
         else r' == r
  }

  /** A transition, to enabled or to disabled, is accepted exactly when it is allowed.  Then it raises the epoch by
      one, sets the flag, ends the outstanding permits of that authority and touches no other authority; otherwise
      it changes nothing. */
  lemma TransitionExact(s: Store, key: AuthorityKey, enabled: bool, now: Time)
    ensures var (t, response) := Apply(s, SetAuthority(key, enabled, now));
            var epoch := if key in s.authorities then s.authorities[key].epoch else 1;
            if TransitionAllowed(s, key, now) then
              && response == Authority(AuthorityState(epoch + 1, enabled))
              && t.authorities == s.authorities[key := AuthorityState(epoch + 1, enabled)]
              && EndsPermits(s, t, key, now)
            else t == s && response == Refused(InvalidTransition)
  {
    hide Utf8.Encode;
  }

  // ---------------------------------------------------------------- what the other steps do

  /** An unbound permit needs no authority; a bound one needs its own, enabled, at the epoch it was issued under,
      which is 1 for an authority that was never changed. */
  predicate InForce(s: Store, c: Claims) {
    c.executionBinding != "" ==>
      var key := AuthorityKey(c.principalID, c.agentID, c.workloadID);
      if key in s.authorities then s.authorities[key] == AuthorityState(c.authorityEpoch, true)
      else c.authorityEpoch == 1
  }

  lemma InForceExact(s: Store, c: Claims)
    ensures AuthorityHolds(s, c) <==> InForce(s, c)
  {
  }

  /** A record as it is at a clock reading: an outstanding permit that has reached its expiry is expired since then.
      The zero time tells nothing. */
  function AsOf(r: Record, now: Time): Record {
    var expiry := r.claims.expiresAt * 1_000_000_000;
    if r.state == Issued && now != -62_135_596_800_000_000_000 && now >= expiry
    then Record(r.claims, Expired, r.consumedAt, Some(expiry), r.revokedAt) else r
  }

  /** A permit is registered exactly when its claims are valid, its id is new and its authority is in force; then its
      record is all that changes. */
  lemma RegisterExact(s: Store, c: Claims)
    ensures var (t, response) := Apply(s, Op.Register(c));
            if ValidClaims(c) && c.permitID !in s.records && InForce(s, c) then
              && response == Registered
              && t == Store(s.records[c.permitID := Record(c, Issued, None, None, None)], s.authorities)
            else
              && t == s
              && response == Refused(if !ValidClaims(c) then InvalidClaims
                                     else if c.permitID in s.records then PermitExists else AuthorityChanged)
  {
    hide ValidClaims, AuthorityHolds, InForce;
    InForceExact(s, c);
  }

  /** Reading, one record or all of them, marks expiry and nothing else. */
  lemma ReadExact(s: Store, id: string, now: Time)
    ensures Apply(s, Op.Get(id, now)) ==
            if id in s.records then (Store(s.records[id := AsOf(s.records[id], now)], s.authorities),
                                     Found(AsOf(s.records[id], now)))
            else (s, NotFound)
    ensures var records := map id | id in s.records :: AsOf(s.records[id], now);
            Apply(s, Op.List(now)) == (Store(records, s.authorities), Listed(records))
  {
    forall k | k in s.records ensures AsOf(s.records[k], now) == ExpireIfNeeded(s.records[k], now) {
    }
    hide AsOf, ExpireIfNeeded;
    assert (map k | k in s.records :: AsOf(s.records[k], now)) ==
           (map k | k in s.records :: ExpireIfNeeded(s.records[k], now));
  }

  /** A permit is consumed exactly when it is outstanding at the reading and its authority is in force.  An expired one
      is marked, one whose authority has changed is revoked, and any other is left as it is. */
  lemma ConsumeExact(s: Store, id: string, now: Time)
    ensures id !in s.records ==> Apply(s, Op.Consume(id, now)) == (s, ConsumeResult(UnknownPermit, None))
    ensures id in s.records ==>
            var r := AsOf(s.records[id], now);
            var (outcome, after) :=
              match r.state
              case Issued =>
                (if InForce(s, r.claims)
                 then (Succeeded, Record(r.claims, State.Consumed, Some(now), r.expiredAt, r.revokedAt))
                 else (WasRevoked, Record(r.claims, State.Revoked, r.consumedAt, r.expiredAt, Some(now))))
              case Consumed => (Replayed, r)
              case Expired => (WasExpired, r)
              case Revoked => (WasRevoked, r);
            Apply(s, Op.Consume(id, now)) == (Store(s.records[id := after], s.authorities),
                                              ConsumeResult(outcome, Some(after)))
  {
    if id in s.records {
      assert AsOf(s.records[id], now) == ExpireIfNeeded(s.records[id], now);
      assert s.records[id := s.records[id]] == s.records;
      InForceExact(s, s.records[id].claims);
    }
    hide InForce, AuthorityHolds;
  }

  /** A permit is revoked exactly when it is outstanding at the reading. */
  lemma RevokeExact(s: Store, id: string, now: Time)
    ensures id !in s.records ==> Apply(s, Op.Revoke(id, now)) == (s, Refused(PermitNotFound))
    ensures id in s.records ==>
            var r := AsOf(s.records[id], now);
            var after := if r.state == Issued then Record(r.claims, State.Revoked, r.consumedAt, r.expiredAt, Some(now))
                         else r;
            Apply(s, Op.Revoke(id, now)) == (Store(s.records[id := after], s.authorities),
                                             if r.state == Issued then RevokedRecord(after)
                                             else Refused(PermitNotActive))
  {
    assert id in s.records ==> AsOf(s.records[id], now) == ExpireIfNeeded(s.records[id], now);
  }

  // ---------------------------------------------------------------- the order of a listing

  /** The newest issue second first, then the permit id. */
  predicate Precedes(r: Record, q: Record) {
    if r.claims.issuedAt == q.claims.issuedAt then Utf8.Before(r.claims.permitID, q.claims.permitID)
    else r.claims.issuedAt > q.claims.issuedAt
  }

  predicate InListOrder(l: seq<Record>) {
    forall i, j | 0 <= i < j < |l| ::
      || l[i].claims.issuedAt > l[j].claims.issuedAt
      || (l[i].claims.issuedAt == l[j].claims.issuedAt && !Utf8.Before(l[j].claims.permitID, l[i].claims.permitID))
  }

  /** The list holds the record of each of the given permits once. */
  ghost predicate ListsEach(records: map<string, Record>, done: set<string>, ids: seq<string>, l: seq<Record>) {
    && done <= records.Keys && |ids| == |l|
    && (forall i, j | 0 <= i < j < |ids| :: ids[i] != ids[j])
    && (forall id :: id in ids <==> id in done)
    && (forall i | 0 <= i < |ids| :: l[i] == records[ids[i]])
  }

  ghost predicate Listing(records: map<string, Record>, l: seq<Record>) {
    InListOrder(l) && exists ids :: ListsEach(records, records.Keys, ids, l)
  }

  lemma NotPrecedesTransitive(r: Record, q: Record, p: Record)
    requires !Precedes(r, q) && !Precedes(q, p)
    ensures !Precedes(r, p)
  {
    var a, b, c := r.claims.permitID, q.claims.permitID, p.claims.permitID;
    if Precedes(r, p) {
      Canonical.BeforeTotal(a, b);
      Canonical.BeforeTotal(b, c);
      if a != b && b != c && r.claims.issuedAt == q.claims.issuedAt == p.claims.issuedAt {
        Canonical.BeforeTransitive(c, b, a);
        Canonical.BeforeStrict(c, a);
      }
    }
  }

  lemma PrecedesStrict(r: Record, q: Record)
    requires Precedes(r, q)
    ensures r != q && !Precedes(q, r)
  {
    if r.claims.issuedAt == q.claims.issuedAt {
      Canonical.BeforeStrict(r.claims.permitID, q.claims.permitID);
    }
  }

  lemma AddsOne(records: map<string, Record>, done: set<string>, ids: seq<string>, l: seq<Record>, id: string, k: nat)
    requires ListsEach(records, done, ids, l) && id in records && id !in done && k <= |l|
    ensures ListsEach(records, done + {id}, ids[..k] + [id] + ids[k..], l[..k] + [records[id]] + l[k..])
  {
    var ids' := ids[..k] + [id] + ids[k..];
    InsertedMembers(ids, id, k);
    forall i, j | 0 <= i < j < |ids'| ensures ids'[i] != ids'[j] {
      assert i != k ==> ids'[i] == ids[if i < k then i else i - 1];
      assert j != k ==> ids'[j] == ids[if j < k then j else j - 1];
    }
  }

  lemma InsertedMembers(s: seq<string>, x: string, k: nat)
    requires k <= |s|
    ensures forall y :: y in s[..k] + [x] + s[k..] <==> y == x || y in s
  {
    assert s == s[..k] + s[k..];
    assert forall y :: y in s <==> y in s[..k] || y in s[k..];
  }

  lemma InsertKeepsOrder(l: seq<Record>, r: Record, k: nat)
    requires InListOrder(l) && k <= |l| && forall i | 0 <= i < |l| :: Precedes(l[i], r) <==> i < k
    ensures InListOrder(l[..k] + [r] + l[k..])
  {
    var l' := l[..k] + [r] + l[k..];
    forall i, j | 0 <= i < j < |l'| ensures !Precedes(l'[j], l'[i]) {
      if j == k {
        PrecedesStrict(l[i], r);
      } else if i == k {
        assert l'[j] == l[j - 1];
      } else {
        assert l'[i] == l[if i < k then i else i - 1] && l'[j] == l[if j < k then j else j - 1];
      }
    }
  }

  predicate StrictlyOrdered(l: seq<Record>) { forall i, j | 0 <= i < j < |l| :: Precedes(l[i], l[j]) }

  lemma SameFirst(a: seq<Record>, b: seq<Record>)
    requires StrictlyOrdered(a) && StrictlyOrdered(b) && a != [] && b != [] && a[0] in b && b[0] in a
    ensures a[0] == b[0]
  {
    hide Precedes;
    var i :| 0 <= i < |b| && b[i] == a[0];
    var j :| 0 <= j < |a| && a[j] == b[0];
    if 0 < i && 0 < j {
      PrecedesStrict(b[0], b[i]);
    }
  }

  lemma {:induction false} StrictlyOrderedUnique(a: seq<Record>, b: seq<Record>)
    requires StrictlyOrdered(a) && StrictlyOrdered(b) && forall r :: r in a <==> r in b
    ensures a == b
  {
    hide Precedes;
    assert |a| > 0 ==> a[0] in b;
    assert |b| > 0 ==> b[0] in a;
    if a != [] && b != [] {
      SameFirst(a, b);
      forall r ensures r in a[1..] <==> r in b[1..] {
        assert r in a <==> r == a[0] || r in a[1..];
        assert r in b <==> r == b[0] || r in b[1..];
        if r in a[1..] || r in b[1..] {
          assert Precedes(a[0], r);
          PrecedesStrict(a[0], r);
        }
      }
      StrictlyOrderedUnique(a[1..], b[1..]);
    }
  }

  lemma ListingStrict(records: map<string, Record>, ids: seq<string>, l: seq<Record>)
    requires ListsEach(records, records.Keys, ids, l) && InListOrder(l)
    requires forall id | id in records :: records[id].claims.permitID == id
    ensures StrictlyOrdered(l) && forall r :: r in l <==> r in records.Values
  {
    forall i, j | 0 <= i < j < |l| ensures Precedes(l[i], l[j]) {
      assert ids[i] in records && ids[j] in records;
      Canonical.BeforeTotal(ids[i], ids[j]);
    }
    forall r ensures r in l <==> r in records.Values {
      if r in records.Values {
        var id :| id in records && records[id] == r;
        assert id in ids;
      }
    }
  }

  /** Records filed under their own permit ids have one listing. */
  lemma OneListing(records: map<string, Record>, a: seq<Record>, b: seq<Record>)
    requires Listing(records, a) && Listing(records, b)
    requires forall id | id in records :: records[id].claims.permitID == id
    ensures a == b
  {
    var x :| ListsEach(records, records.Keys, x, a);
    var y :| ListsEach(records, records.Keys, y, b);
    ListingStrict(records, x, a);
    ListingStrict(records, y, b);
    StrictlyOrderedUnique(a, b);
  }

  // ---------------------------------------------------------------- the store in place

  class MemoryStore {
    var records: map<string, Record>
    var authorities: map<AuthorityKey, AuthorityState>

    function Value(): Store
      reads this
    {
      Store(records, authorities)
    }

    constructor ()
      ensures Value() == EMPTY_STORE
    {
      records := map[];
      authorities := map[];
    }

    method Register(claims: Claims) returns (error: Option<StoreError>)
      modifies this
      ensures Value() == Apply(old(Value()), Op.Register(claims)).0
      ensures Apply(old(Value()), Op.Register(claims)).1 ==
              match error case None => Registered case Some(e) => Refused(e)
    {
      hide ValidClaims;
      var valid := ValidateClaims(claims);
      if !valid {
        return Some(InvalidClaims);
      }
      if claims.permitID in records {
        return Some(PermitExists);
      }
      if claims.executionBinding != "" {
        var authority := AuthorityOf(Value(), claims.Domain());
        if !authority.enabled || claims.authorityEpoch != authority.epoch {
          return Some(AuthorityChanged);
        }
      }
      records := records[claims.permitID := Record(claims, Issued, None, None, None)];
      return None;
    }

    method Get(id: string, now: Time) returns (record: Option<Record>)
      modifies this`records
      ensures Value() == Apply(old(Value()), Op.Get(id, now)).0
      ensures Apply(old(Value()), Op.Get(id, now)).1 == match record case None => NotFound case Some(r) => Found(r)
    {
      if id !in records {
        return None;
      }
      var r := ExpireIfNeeded(records[id], now);
      records := records[id := r];
      return Some(r);
    }

    method List(now: Time) returns (listed: seq<Record>)
      modifies this`records
      ensures Value() == Apply(old(Value()), Op.List(now)).0
      ensures Apply(old(Value()), Op.List(now)).1 == Listed(records)
      ensures Listing(records, listed)
    {
      var remaining := records.Keys;
      listed := [];
      ghost var ids: seq<string> := [];
      while remaining != {}
        invariant records.Keys == old(records).Keys && remaining <= records.Keys
        invariant forall id | id in records ::
          records[id] == if id in remaining then old(records)[id] else ExpireIfNeeded(old(records)[id], now)
        invariant ListsEach(records, records.Keys - remaining, ids, listed) && InListOrder(listed)
      {
        var id :| id in remaining;
        var record := ExpireIfNeeded(records[id], now);
        assert ListsEach(records[id := record], records.Keys - remaining, ids, listed);
        records := records[id := record];
        var k := Place(listed, record);
        AddsOne(records, records.Keys - remaining, ids, listed, id, k);
        InsertKeepsOrder(listed, record, k);
        listed, ids := listed[..k] + [record] + listed[k..], ids[..k] + [id] + ids[k..];
        remaining := remaining - {id};
        assert records.Keys - remaining == (records.Keys - (remaining + {id})) + {id};
      }
      assert records == map id | id in old(records) :: ExpireIfNeeded(old(records)[id], now);
      assert records.Keys - remaining == records.Keys;
    }

    /** Where a record goes in an ordered list: after every record that precedes it. */
    method Place(listed: seq<Record>, record: Record) returns (k: nat)
      requires InListOrder(listed)
      ensures k <= |listed|
      ensures forall i | 0 <= i < |listed| :: Precedes(listed[i], record) <==> i < k
    {
      k := 0;
      while k < |listed| && Precedes(listed[k], record)
        invariant k <= |listed|
        invariant forall i | 0 <= i < k :: Precedes(listed[i], record)
      {
        k := k + 1;
      }
      forall i | k < i < |listed| ensures !Precedes(listed[i], record) {
        NotPrecedesTransitive(listed[i], listed[k], record);
      }
    }

    method Consume(id: string, now: Time) returns (outcome: ConsumeOutcome, record: Option<Record>)
      modifies this`records
      ensures Value() == Apply(old(Value()), Op.Consume(id, now)).0
      ensures Apply(old(Value()), Op.Consume(id, now)).1 == ConsumeResult(outcome, record)
    {
      if id !in records {
        return UnknownPermit, None;
      }
      var r := ExpireIfNeeded(records[id], now);
      match r.state
      case Issued =>
        if r.claims.executionBinding != "" {
          var authority := AuthorityOf(Value(), r.claims.Domain());
          if !authority.enabled || r.claims.authorityEpoch != authority.epoch {
            r := r.(state := State.Revoked, revokedAt := Some(now));
            records := records[id := r];
            return WasRevoked, Some(r);
          }
        }
        r := r.(state := Consumed, consumedAt := Some(now));
        records := records[id := r];
        return Succeeded, Some(r);
      case Consumed =>
        return Replayed, Some(r);
      case Expired =>
        records := records[id := r];
        return WasExpired, Some(r);
      case Revoked =>
        return WasRevoked, Some(r);
    }

    method Revoke(id: string, now: Time) returns (record: Result<Record, StoreError>)
      modifies this`records
      ensures Value() == Apply(old(Value()), Op.Revoke(id, now)).0
      ensures Apply(old(Value()), Op.Revoke(id, now)).1 ==
              match record case Ok(r) => RevokedRecord(r) case Err(e) => Refused(e)
    {
      if id !in records {
        return Err(PermitNotFound);
      }
      var r := ExpireIfNeeded(records[id], now);
      if r.state != Issued {
        records := records[id := r];
        return Err(PermitNotActive);
      }
      r := r.(state := State.Revoked, revokedAt := Some(now));
      records := records[id := r];
      return Ok(r);
    }

    /** A key that no transition ever touched is enabled at epoch 1. */
    method ReadAuthority(key: AuthorityKey) returns (authority: AuthorityState)
      ensures key !in authorities ==> authority == AuthorityState(1, true)
      ensures key in authorities ==> authority == authorities[key]
      ensures Apply(Value(), Op.ReadAuthority(key)) == (Value(), Authority(authority))
    {
      return AuthorityOf(Value(), key);
    }

    method SetAuthorityEnabled(key: AuthorityKey, enabled: bool, now: Time)
      returns (r: Result<AuthorityState, StoreError>)
      modifies this
      ensures Value() == Apply(old(Value()), SetAuthority(key, enabled, now)).0
      ensures Apply(old(Value()), SetAuthority(key, enabled, now)).1 ==
              match r case Ok(authority) => Authority(authority) case Err(e) => Refused(e)
      ensures r.Ok? <==> TransitionAllowed(old(Value()), key, now)
      ensures r.Ok? ==>
                && r.value == AuthorityState(AuthorityOf(old(Value()), key).epoch + 1, enabled)
                && authorities == old(authorities)[key := r.value] && EndsPermits(old(Value()), Value(), key, now)
      ensures r.Err? ==> Value() == old(Value())
    {
      TransitionExact(Value(), key, enabled, now);
      hide TransitionAllowed, EndsPermits, RevokeIfOutstanding, ValidAuthorityKey;
      if !ValidAuthorityKey(key) || now == ZERO_TIME {
        return Err(InvalidTransition);
      }
      var state := AuthorityOf(Value(), key);
      if state.epoch == MAX_UINT64 {
        return Err(InvalidTransition);
      }
      state := AuthorityState(state.epoch + 1, enabled);
      authorities := authorities[key := state];
      RevokeOutstanding(key, now);
      return Ok(state);
    }

    /** The bulk revocation of a transition, record by record. */
    method RevokeOutstanding(key: AuthorityKey, now: Time)
      modifies this`records
      ensures records == map id | id in old(records) :: RevokeIfOutstanding(old(records)[id], key, now)
    {
      var remaining := records.Keys;
      while remaining != {}
        invariant records.Keys == old(records).Keys && remaining <= records.Keys
        invariant forall id | id in records ::
          records[id] == if id in remaining then old(records)[id] else RevokeIfOutstanding(old(records)[id], key, now)
      {
        var id :| id in remaining;
        var record := records[id];
        if record.state == Issued && record.claims.permitClass == Execution && record.claims.Domain() == key {
          records := records[id := record.(state := State.Revoked, revokedAt := Some(now))];
        }
        remaining := remaining - {id};
      }
    }
  }
}
