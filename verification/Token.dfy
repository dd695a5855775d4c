/**
  The compact permit token (internal/permit/token.go): header and claims as JSON, base64url, and an
  Ed25519 signature, which is left abstract.
 */
module Token {
  import opened Wrappers
  import opened CanonicalAction
  import opened Permits
  import opened Json
  import Base64
  import Canonical
  import Numbers
  import Utf8

  const MAX_COMPACT_BYTES := 0x1_0000
  const TOKEN_TYPE := "AEGIS-PERMIT"

  datatype TokenError = InvalidKey | InvalidTokenClaims | MalformedToken | InvalidTokenSignature | UnsupportedToken

  /** Signing and verifying, with the sizes of Ed25519. */
  datatype Scheme = Scheme(publicOf: Bytes -> Bytes, sign: (Bytes, Bytes) -> Bytes,
                           verify: (Bytes, Bytes, Bytes) -> bool)

  /** A key pair for which what was signed verifies. */
  ghost predicate Correct(scheme: Scheme, privateKey: Bytes) {
    && |privateKey| == 64 && |scheme.publicOf(privateKey)| == 32
    && forall m: Bytes :: var signature := scheme.sign(privateKey, m);
                          |signature| == 64 && scheme.verify(scheme.publicOf(privateKey), m, signature)
  }

  // ---------------------------------------------------------------- JSON of a Go struct

  /** A field of a Go struct: written unless it is empty and tagged omitempty. */
  datatype Slot = Slot(key: string, tree: Tree, present: bool)

  function Fields(slots: seq<Slot>): seq<Field> {
    if slots == [] then []
    else (if slots[0].present then [Field(slots[0].key, slots[0].tree)] else []) + Fields(slots[1..])
  }

  function Text(key: string, s: string): Slot { Slot(key, TStr(s), true) }

  function OptionalText(key: string, s: string): Slot { Slot(key, TStr(s), s != "") }

  function Flag(key: string, b: bool): Slot { Slot(key, TBool(b), b) }

  function Number(key: string, n: int): Slot { Slot(key, TNum(Numbers.FormatInt(n)), true) }

  function ClassName(c: PermitClass): string {
    match c case Execution => "execution" case Simulation => "simulation" case Unknown(name) => name
  }

  function ClassOf(name: string): PermitClass {
    if name == "execution" then Execution else if name == "simulation" then Simulation else Unknown(name)
  }

  function ObligationSlots(o: Obligations): seq<Slot> {
    [Flag("isolation_required", o.isolation), Flag("network_egress_denied", o.noEgress), Flag("read_only", o.readOnly),
     Flag("human_approval_required", o.approval), Flag("enhanced_audit_required", o.audit)]
  }

  function IdentitySlots(c: Claims): seq<Slot> {
    [Text("jti", c.permitID), Text("signing_key_id", c.signingKeyID), Text("permit_class", ClassName(c.permitClass)),
     Text("request_id", c.requestID), Text("principal", c.principalID), Text("agent", c.agentID),
     Text("workload", c.workloadID)]
  }

  function ExecutorSlots(c: Claims): seq<Slot> {
    [OptionalText("executor_key_id", c.executorKeyID), OptionalText("executor_key_thumbprint", c.executorKeyThumbprint),
     OptionalText("delegated_authority_fingerprint", c.delegation)]
  }

  function ActionSlots(c: Claims): seq<Slot> {
    [Text("tool", c.tool), Text("capability", c.capability), Text("resource", c.resource),
     Text("operation", c.operation), OptionalText("profile_id", c.profileID), OptionalText("audience", c.audience),
     Text("action_digest", c.actionDigest)]
  }

  function BindingSlots(c: Claims): seq<Slot> {
    [OptionalText("execution_binding", c.executionBinding),
     Slot("authority_epoch", TNum(Numbers.FormatInt(c.authorityEpoch)), c.authorityEpoch != 0),
     Text("policy_version", c.policyVersion), Slot("obligations", TObj(Fields(ObligationSlots(c.obligations))), true)]
  }

  function LifetimeSlots(c: Claims): seq<Slot> {
    [Text("iss", c.issuer), Number("iat", c.issuedAt), Number("exp", c.expiresAt),
     Slot("single_use", TBool(c.singleUse), true)]
  }

  function ClaimSlots(c: Claims): seq<Slot> {
    IdentitySlots(c) + ExecutorSlots(c) + ActionSlots(c) + BindingSlots(c) + LifetimeSlots(c)
  }

  function ClaimsTree(c: Claims): Tree { TObj(Fields(ClaimSlots(c))) }

  datatype Header = Header(algorithm: string, tokenType: string, version: int, keyID: string)

  function HeaderSlots(h: Header): seq<Slot> {
    [Text("alg", h.algorithm), Text("typ", h.tokenType), Number("v", h.version), Text("kid", h.keyID)]
  }

  function HeaderTree(h: Header): Tree { TObj(Fields(HeaderSlots(h))) }

  // ---------------------------------------------------------------- decoding into a struct

  /** A missing member and null both leave a field at its zero value. */
  function StringAt(m: map<string, Value>, key: string): Option<string> {
    if key !in m || m[key].Null? then Some("") else if m[key].Str? then Some(m[key].s) else None
  }

  function BoolAt(m: map<string, Value>, key: string): Option<bool> {
    if key !in m || m[key].Null? then Some(false) else if m[key].Bool? then Some(m[key].b) else None
  }

  ghost function IntAt(m: map<string, Value>, key: string, low: int, high: int): Option<int> {
    if key !in m || m[key].Null? then Some(0)
    else if !m[key].Num? || !Numbers.MatchesPattern(m[key].text) then None
    else
      var n := Numbers.NumberValue(m[key].text);
      if n == n.Floor as real && low <= n.Floor <= high then Some(n.Floor) else None
  }

  const INT64_MIN := -0x8000_0000_0000_0000
  const INT64_MAX := 0x7FFF_FFFF_FFFF_FFFF

  const OBLIGATION_KEYS := {"isolation_required", "network_egress_denied", "read_only", "human_approval_required",
                            "enhanced_audit_required"}

  function DecodeObligations(m: map<string, Value>): Option<Obligations> {
    var o := if "obligations" in m then m["obligations"] else Null;
    if o.Null? then Some(NO_OBLIGATIONS)
    else if !o.Obj? || !(o.members.Keys <= OBLIGATION_KEYS) || exists k | k in o.members :: BoolAt(o.members, k).None?
      then None
    else
      Some(Obligations(BoolAt(o.members, "isolation_required").value, BoolAt(o.members, "network_egress_denied").value,
                       BoolAt(o.members, "read_only").value, BoolAt(o.members, "human_approval_required").value,
                       BoolAt(o.members, "enhanced_audit_required").value))
  }

  const STRING_KEYS := {"jti", "signing_key_id", "permit_class", "request_id", "principal", "agent", "workload",
                        "executor_key_id", "executor_key_thumbprint", "delegated_authority_fingerprint", "tool",
                        "capability", "resource", "operation", "profile_id", "audience", "action_digest",
                        "execution_binding", "policy_version", "iss"}

  const OTHER_KEYS := {"authority_epoch", "obligations", "iat", "exp", "single_use"}

  /** strictJSON into Claims: unknown members are refused. */
  ghost function DecodeClaims(v: Value): Option<Claims> {
    if !v.Obj? || !(v.members.Keys <= STRING_KEYS + OTHER_KEYS)
      || (exists k | k in STRING_KEYS :: StringAt(v.members, k).None?) then None
    else
      var m := v.members;
      var epoch := IntAt(m, "authority_epoch", 0, MAX_UINT64);
      var issuedAt, expiresAt := IntAt(m, "iat", INT64_MIN, INT64_MAX), IntAt(m, "exp", INT64_MIN, INT64_MAX);
      var obligations, singleUse := DecodeObligations(m), BoolAt(m, "single_use");
      if epoch.None? || issuedAt.None? || expiresAt.None? || obligations.None? || singleUse.None? || epoch.value < 0
        then None
      else
        var s := (k: string) requires k in STRING_KEYS => StringAt(m, k).value;
        Some(Claims(s("jti"), s("signing_key_id"), ClassOf(s("permit_class")), s("request_id"), s("principal"),
                    s("agent"),
                    s("workload"), s("executor_key_id"), s("executor_key_thumbprint"),
                      s("delegated_authority_fingerprint"),
                    s("tool"), s("capability"), s("resource"), s("operation"), s("profile_id"), s("audience"),
                    s("action_digest"), s("execution_binding"), epoch.value, s("policy_version"), obligations.value,
                    s("iss"), issuedAt.value, expiresAt.value, singleUse.value))
  }

  ghost function DecodeHeader(v: Value): Option<Header> {
    if !v.Obj? || !(v.members.Keys <= {"alg", "typ", "v", "kid"}) then None
    else
      var algorithm, tokenType, keyID := StringAt(v.members, "alg"), StringAt(v.members, "typ"),
        StringAt(v.members, "kid");
      var version := IntAt(v.members, "v", INT64_MIN, INT64_MAX);
      if algorithm.None? || tokenType.None? || keyID.None? || version.None? then None
      else Some(Header(algorithm.value, tokenType.value, version.value, keyID.value))
  }

  // ---------------------------------------------------------------- the token

  /** Canonicalization as a strict syntax and duplicate-key check, then the value itself. */
  ghost function ReadDocument(encoded: string): Option<Value> {
    match Base64.Decode(encoded)
    case None => None
    case Some(bytes) =>
      if Canonical.CanonicalizeJSON(bytes).Err? then None
      else match Canonical.ParseText(Canonical.TrimSpace(Utf8.Decode(bytes).value))
        case Err(_) => None
        case Ok(v) => Some(v)
  }

  predicate SupportedHeader(h: Header) {
    h.algorithm == "EdDSA" && h.tokenType == TOKEN_TYPE && (h.version == 1 || h.version == 2) && ValidKeyID(h.keyID)
  }

  function HeaderFor(keyID: string, c: Claims): Header {
    Header("EdDSA", TOKEN_TYPE, if c.executionBinding != "" then 2 else 1, keyID)
  }

  function EncodeJSON(t: Tree): string { Base64.Encode(Utf8.Encode(Render(t))) }

  function SigningInput(keyID: string, c: Claims): string {
    EncodeJSON(HeaderTree(HeaderFor(keyID, c))) + "." + EncodeJSON(ClaimsTree(c))
  }

  function SignToken(scheme: Scheme, privateKey: Bytes, keyID: string, c: Claims): Result<string, TokenError> {
    if |privateKey| != 64 then Err(InvalidKey)
    else if !ValidClaims(c) || !ValidKeyID(keyID) || c.signingKeyID != keyID then Err(InvalidTokenClaims)
    else
      var input := SigningInput(keyID, c);
      Ok(input + "." + Base64.Encode(scheme.sign(privateKey, Utf8.Encode(input))))
  }

  /** strings.Split(s, "."). */
  function SplitDots(s: string): (parts: seq<string>)
    ensures parts != []
  {
    if s == "" then [""]
    else
      var rest := SplitDots(s[1..]);
      if s[0] == '.' then [""] + rest else [[s[0]] + rest[0]] + rest[1..]
  }

  function TokenParts(token: string): Option<(string, string, string)> {
    if token == "" || Utf8.Size(token) > MAX_COMPACT_BYTES then None
    else
      var parts := SplitDots(token);
      if |parts| != 3 || parts[0] == "" || parts[1] == "" || parts[2] == "" then None
      else Some((parts[0], parts[1], parts[2]))
  }

  ghost function VerifyToken(scheme: Scheme, publicKey: Bytes, token: string): Result<Claims, TokenError> {
    if |publicKey| != 32 then Err(InvalidKey)
    else match TokenParts(token)
      case None => Err(MalformedToken)
      case Some((header64, payload64, signature64)) =>
        match Base64.Decode(signature64)
        case None => Err(InvalidTokenSignature)
        case Some(signature) =>
          if |signature| != 64 || Base64.Encode(signature) != signature64
             || !scheme.verify(publicKey, Utf8.Encode(header64 + "." + payload64), signature)
                then Err(InvalidTokenSignature)
          else if ReadDocument(header64).None? || ReadDocument(payload64).None? then Err(MalformedToken)
          else match DecodeHeader(ReadDocument(header64).value)
            case None => Err(MalformedToken)
            case Some(header) =>
              if !SupportedHeader(header) then Err(UnsupportedToken)
              else match DecodeClaims(ReadDocument(payload64).value)
                case None => Err(MalformedToken)
                case Some(c) =>
                  if !ValidClaims(c) then Err(InvalidTokenClaims)
                  else if (header.version == 2) != (c.executionBinding != "") then Err(UnsupportedToken)
                  else if c.signingKeyID != header.keyID then Err(InvalidTokenClaims)
                  else Ok(c)
  }

  ghost function TokenKeyID(token: string): Result<string, TokenError> {
    match TokenParts(token)
    case None => Err(MalformedToken)
    case Some((header64, _, _)) =>
      match ReadDocument(header64)
      case None => Err(MalformedToken)
      case Some(v) =>
        match DecodeHeader(v)
        case None => Err(MalformedToken)
        case Some(header) => if SupportedHeader(header) then Ok(header.keyID) else Err(UnsupportedToken)
  }
}
