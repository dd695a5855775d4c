/**
  What a compact permit token must be to be accepted (internal/permit/token.go, VerifyToken): read from the
  token itself, with the conditions on its three parts, its signature and the documents inside it written out.
 */
module TokenCheck {
  import opened Wrappers
  import opened CanonicalAction
  import opened Permits
  import opened Json
  import opened Token
  import Base64
  import Canonical
  import Numbers
  import Syntax
  import TokenSize
  import Utf8

  // ---------------------------------------------------------------- the three parts

  lemma {:induction false} SplitDotsExact(s: string)
    ensures var parts := SplitDots(s);
            && (forall i | 0 <= i < |parts| :: '.' !in parts[i])
            && (|parts| == 1 ==> s == parts[0])
            && (|parts| == 2 ==> s == parts[0] + "." + parts[1])
            && (|parts| == 3 ==> s == parts[0] + "." + parts[1] + "." + parts[2])
  {
    if s != "" {
      SplitDotsExact(s[1..]);
      var rest := SplitDots(s[1..]);
      assert s == [s[0]] + s[1..];
      if s[0] == '.' {
        FrontDot(s, rest);
      } else {
        FrontChar(s, rest);
      }
    }
  }

  lemma FrontDot(s: string, rest: seq<string>)
    requires s != "" && s[0] == '.' && rest != []
    requires |rest| == 1 ==> s[1..] == rest[0]
    requires |rest| == 2 ==> s[1..] == rest[0] + "." + rest[1]
    ensures |rest| == 1 ==> s == "" + "." + rest[0]
    ensures |rest| == 2 ==> s == "" + "." + rest[0] + "." + rest[1]
  {
    assert s == "." + s[1..];
  }

  lemma FrontChar(s: string, rest: seq<string>)
    requires s != "" && rest != []
    requires |rest| == 1 ==> s[1..] == rest[0]
    requires |rest| == 2 ==> s[1..] == rest[0] + "." + rest[1]
    requires |rest| == 3 ==> s[1..] == rest[0] + "." + rest[1] + "." + rest[2]
    ensures var head := [s[0]] + rest[0];
            && (|rest| == 1 ==> s == head)
            && (|rest| == 2 ==> s == head + "." + rest[1])
            && (|rest| == 3 ==> s == head + "." + rest[1] + "." + rest[2])
  {
    assert s == [s[0]] + s[1..];
  }

  /** Three non-empty parts without dots, joined by dots, within 64 KiB. */
  predicate ThreeParts(token: string, a: string, b: string, c: string) {
    && token == a + "." + b + "." + c && Utf8.Size(token) <= 65_536
    && a != "" && b != "" && c != "" && '.' !in a && '.' !in b && '.' !in c
  }

  lemma PartsExact(token: string, a: string, b: string, c: string)
    ensures TokenParts(token) == Some((a, b, c)) <==> ThreeParts(token, a, b, c)
  {
    hide Utf8.Encode;
    SplitDotsExact(token);
    if ThreeParts(token, a, b, c) {
      assert token == a + "." + (b + "." + c);
      TokenSize.SplitPart(a, b + "." + c);
      TokenSize.SplitPart(b, c);
      TokenSize.SplitLast(c);
      assert SplitDots(token) == [a, b, c];
    }
  }

  // ---------------------------------------------------------------- the documents

  /** A part that encodes an acceptable JSON text, which denotes the value. */
  ghost predicate Encodes(part: string, v: Value) {
    exists s: string :: EncodesText(part, s, v)
  }

  ghost predicate EncodesText(part: string, s: string, v: Value) {
    && Base64.Decode(part) == Some(Utf8.Encode(s)) && Canonical.AcceptableText(Canonical.TrimSpace(s))
    && var t := Syntax.ValueTree(Canonical.TrimSpace(s), 0).value.tree;
       ValidTree(t, Canonical.MAX_JSON_DEPTH) && v == Denote(t, Canonical.MAX_JSON_DEPTH)
  }

  lemma DocumentExact(part: string, v: Value)
    ensures ReadDocument(part) == Some(v) <==> Encodes(part, v)
  {
    hide Canonical.AcceptableText, Base64.Decode, Utf8.Decode, Utf8.Encode, Canonical.ParseText, Canonical.TrimSpace,
      ValidTree, Denote, Syntax.ValueTree, Canonical.Print;
    forall s: string ensures Utf8.Decode(Utf8.Encode(s)) == Some(s) {
      Utf8.DecodeEncode(s);
    }
    forall s: string ensures Canonical.ParseText(s).Ok? <==> Canonical.AcceptableText(s) {
      Canonical.ParseIsExact(s);
    }
    if Base64.Decode(part).Some? {
      var bytes := Base64.Decode(part).value;
      if Utf8.Decode(bytes).Some? {
        var s := Utf8.Decode(bytes).value;
        Utf8.EncodeDecode(bytes);
        Canonical.ParseIsExact(Canonical.TrimSpace(s));
        if ReadDocument(part) == Some(v) {
          assert EncodesText(part, s, v);
        }
      }
    }
    forall s: string | EncodesText(part, s, v) ensures ReadDocument(part) == Some(v) {
      Canonical.ParseIsExact(Canonical.TrimSpace(s));
    }
  }

  /** A text field is the member of its name; a missing member and null leave it empty. */
  predicate TextMember(m: map<string, Value>, key: string, s: string) {
    if key in m && m[key] != Null then m[key] == Str(s) else s == ""
  }

  predicate BoolMember(m: map<string, Value>, key: string, b: bool) {
    if key in m && m[key] != Null then m[key] == Bool(b) else !b
  }

  ghost predicate IntMember(m: map<string, Value>, key: string, n: int) {
    if key in m && m[key] != Null
    then m[key].Num? && Numbers.MatchesPattern(m[key].text) && Numbers.NumberValue(m[key].text) == n as real
    else n == 0
  }

  ghost predicate HeaderSays(v: Value, h: Header) {
    && v.Obj? && v.members.Keys <= {"alg", "typ", "v", "kid"}
    && TextMember(v.members, "alg", h.algorithm) && TextMember(v.members, "typ", h.tokenType)
    && TextMember(v.members, "kid", h.keyID) && IntMember(v.members, "v", h.version)
    && -0x8000_0000_0000_0000 <= h.version < 0x8000_0000_0000_0000
  }

  lemma TextAt(m: map<string, Value>, key: string, s: string)
    ensures StringAt(m, key) == Some(s) <==> TextMember(m, key, s)
  {
  }

  lemma IntegerAt(m: map<string, Value>, key: string, low: int, high: int, n: int)
    requires low <= 0 <= high
    ensures IntAt(m, key, low, high) == Some(n) <==> IntMember(m, key, n) && low <= n <= high
  {
    hide Numbers.NumberValue, Numbers.MatchesPattern;
  }

  lemma HeaderExact(v: Value, h: Header)
    ensures DecodeHeader(v) == Some(h) <==> HeaderSays(v, h)
  {
    hide StringAt, IntAt, TextMember, IntMember;
    if v.Obj? {
      TextAt(v.members, "alg", h.algorithm);
      TextAt(v.members, "typ", h.tokenType);
      TextAt(v.members, "kid", h.keyID);
      IntegerAt(v.members, "v", INT64_MIN, INT64_MAX, h.version);
    }
  }

  /** The five flags, each a member of "obligations", which may be missing. */
  ghost predicate ObligationsSay(m: map<string, Value>, o: Obligations) {
    if "obligations" in m && m["obligations"] != Null then
      && m["obligations"].Obj?
      && var f := m["obligations"].members;
         && f.Keys <= {"isolation_required", "network_egress_denied", "read_only", "human_approval_required",
                       "enhanced_audit_required"}
         && BoolMember(f, "isolation_required", o.isolation) && BoolMember(f, "network_egress_denied", o.noEgress)
         && BoolMember(f, "read_only", o.readOnly) && BoolMember(f, "human_approval_required", o.approval)
         && BoolMember(f, "enhanced_audit_required", o.audit)
    else o == Obligations(false, false, false, false, false)
  }

  predicate IdentitySays(m: map<string, Value>, c: Claims) {
    && TextMember(m, "jti", c.permitID) && TextMember(m, "signing_key_id", c.signingKeyID)
    && TextMember(m, "request_id", c.requestID) && TextMember(m, "principal", c.principalID)
    && TextMember(m, "agent", c.agentID) && TextMember(m, "workload", c.workloadID)
    && TextMember(m, "executor_key_id", c.executorKeyID)
    && TextMember(m, "executor_key_thumbprint", c.executorKeyThumbprint)
    && TextMember(m, "delegated_authority_fingerprint", c.delegation)
  }

  predicate ActionSays(m: map<string, Value>, c: Claims) {
    && TextMember(m, "tool", c.tool) && TextMember(m, "capability", c.capability)
    && TextMember(m, "resource", c.resource) && TextMember(m, "operation", c.operation)
    && TextMember(m, "profile_id", c.profileID) && TextMember(m, "audience", c.audience)
    && TextMember(m, "action_digest", c.actionDigest) && TextMember(m, "execution_binding", c.executionBinding)
    && TextMember(m, "policy_version", c.policyVersion) && TextMember(m, "iss", c.issuer)
  }

  predicate ClassSays(m: map<string, Value>, permitClass: PermitClass) {
    match permitClass
    case Execution => TextMember(m, "permit_class", "execution")
    case Simulation => TextMember(m, "permit_class", "simulation")
    case Unknown(name) => TextMember(m, "permit_class", name) && name != "execution" && name != "simulation"
  }

  /** The integers of the claims, in the ranges of uint64 and int64, and the single-use flag. */
  ghost predicate NumbersSay(m: map<string, Value>, c: Claims) {
    && IntMember(m, "authority_epoch", c.authorityEpoch) && c.authorityEpoch < 0x1_0000_0000_0000_0000
    && IntMember(m, "iat", c.issuedAt) && -0x8000_0000_0000_0000 <= c.issuedAt < 0x8000_0000_0000_0000
    && IntMember(m, "exp", c.expiresAt) && -0x8000_0000_0000_0000 <= c.expiresAt < 0x8000_0000_0000_0000
    && BoolMember(m, "single_use", c.singleUse)
  }

  /** Each claim is the member of its name, and there is no other member. */
  ghost predicate ClaimsSay(v: Value, c: Claims) {
    && v.Obj?
    && v.members.Keys <= {"jti", "signing_key_id", "permit_class", "request_id", "principal", "agent", "workload",
                          "executor_key_id", "executor_key_thumbprint", "delegated_authority_fingerprint", "tool",
                          "capability", "resource", "operation", "profile_id", "audience", "action_digest",
                          "execution_binding", "authority_epoch", "policy_version", "obligations", "iss", "iat",
                          "exp", "single_use"}
    && IdentitySays(v.members, c) && ActionSays(v.members, c) && ClassSays(v.members, c.permitClass)
    && NumbersSay(v.members, c) && ObligationsSay(v.members, c.obligations)
  }

  lemma FlagAt(m: map<string, Value>, key: string, b: bool)
    ensures BoolAt(m, key) == Some(b) <==> BoolMember(m, key, b)
  {
  }

  lemma ObligationsExact(m: map<string, Value>, o: Obligations)
    ensures DecodeObligations(m) == Some(o) <==> ObligationsSay(m, o)
  {
    if "obligations" in m && m["obligations"].Obj? {
      var f := m["obligations"].members;
      forall key, b ensures BoolAt(f, key) == Some(b) <==> BoolMember(f, key, b) {
        FlagAt(f, key, b);
      }
      forall key | key !in f ensures BoolAt(f, key).Some? {
      }
      hide BoolAt, BoolMember;
    }
  }

  /** The text claims as they are read, one by one. */
  predicate IdentityRead(m: map<string, Value>, c: Claims) {
    && StringAt(m, "jti") == Some(c.permitID) && StringAt(m, "signing_key_id") == Some(c.signingKeyID)
    && StringAt(m, "request_id") == Some(c.requestID) && StringAt(m, "principal") == Some(c.principalID)
    && StringAt(m, "agent") == Some(c.agentID) && StringAt(m, "workload") == Some(c.workloadID)
    && StringAt(m, "executor_key_id") == Some(c.executorKeyID)
    && StringAt(m, "executor_key_thumbprint") == Some(c.executorKeyThumbprint)
    && StringAt(m, "delegated_authority_fingerprint") == Some(c.delegation)
  }

  predicate ActionRead(m: map<string, Value>, c: Claims) {
    && StringAt(m, "tool") == Some(c.tool) && StringAt(m, "capability") == Some(c.capability)
    && StringAt(m, "resource") == Some(c.resource) && StringAt(m, "operation") == Some(c.operation)
    && StringAt(m, "profile_id") == Some(c.profileID) && StringAt(m, "audience") == Some(c.audience)
    && StringAt(m, "action_digest") == Some(c.actionDigest)
    && StringAt(m, "execution_binding") == Some(c.executionBinding)
    && StringAt(m, "policy_version") == Some(c.policyVersion) && StringAt(m, "iss") == Some(c.issuer)
  }

  predicate ClassRead(m: map<string, Value>, permitClass: PermitClass) {
    StringAt(m, "permit_class").Some? && permitClass == ClassOf(StringAt(m, "permit_class").value)
  }

  ghost predicate NumbersRead(m: map<string, Value>, c: Claims) {
    && IntAt(m, "authority_epoch", 0, MAX_UINT64) == Some(c.authorityEpoch)
    && IntAt(m, "iat", INT64_MIN, INT64_MAX) == Some(c.issuedAt)
    && IntAt(m, "exp", INT64_MIN, INT64_MAX) == Some(c.expiresAt) && BoolAt(m, "single_use") == Some(c.singleUse)
    && DecodeObligations(m) == Some(c.obligations)
  }

  lemma ClassExact(m: map<string, Value>, permitClass: PermitClass)
    ensures ClassRead(m, permitClass) <==> ClassSays(m, permitClass)
  {
    hide StringAt, TextMember;
    forall s ensures StringAt(m, "permit_class") == Some(s) <==> TextMember(m, "permit_class", s) {
      TextAt(m, "permit_class", s);
    }
  }

  lemma IdentityExact(m: map<string, Value>, c: Claims)
    ensures IdentityRead(m, c) <==> IdentitySays(m, c)
  {
    hide StringAt, TextMember;
    TextAt(m, "jti", c.permitID);
    TextAt(m, "signing_key_id", c.signingKeyID);
    TextAt(m, "request_id", c.requestID);
    TextAt(m, "principal", c.principalID);
    TextAt(m, "agent", c.agentID);
    TextAt(m, "workload", c.workloadID);
    TextAt(m, "executor_key_id", c.executorKeyID);
    TextAt(m, "executor_key_thumbprint", c.executorKeyThumbprint);
    TextAt(m, "delegated_authority_fingerprint", c.delegation);
  }

  lemma ActionExact(m: map<string, Value>, c: Claims)
    ensures ActionRead(m, c) <==> ActionSays(m, c)
  {
    hide StringAt, TextMember;
    TextAt(m, "tool", c.tool);
    TextAt(m, "capability", c.capability);
    TextAt(m, "resource", c.resource);
    TextAt(m, "operation", c.operation);
    TextAt(m, "profile_id", c.profileID);
    TextAt(m, "audience", c.audience);
    TextAt(m, "action_digest", c.actionDigest);
    TextAt(m, "execution_binding", c.executionBinding);
    TextAt(m, "policy_version", c.policyVersion);
    TextAt(m, "iss", c.issuer);
  }

  lemma NumbersExact(m: map<string, Value>, c: Claims)
    ensures NumbersRead(m, c) <==> NumbersSay(m, c) && ObligationsSay(m, c.obligations)
  {
    hide IntAt, IntMember, BoolAt, BoolMember, DecodeObligations, ObligationsSay;
    IntegerAt(m, "authority_epoch", 0, MAX_UINT64, c.authorityEpoch);
    IntegerAt(m, "iat", INT64_MIN, INT64_MAX, c.issuedAt);
    IntegerAt(m, "exp", INT64_MIN, INT64_MAX, c.expiresAt);
    FlagAt(m, "single_use", c.singleUse);
    ObligationsExact(m, c.obligations);
  }

  lemma DecodesToRead(v: Value, c: Claims)
    requires v.Obj? && v.members.Keys <= STRING_KEYS + OTHER_KEYS
    ensures var m := v.members;
            DecodeClaims(v) == Some(c) <==>
            IdentityRead(m, c) && ActionRead(m, c) && ClassRead(m, c.permitClass) && NumbersRead(m, c)
  {
    hide StringAt, IntAt, BoolAt, DecodeObligations, ClassOf;
    var m := v.members;
    if IdentityRead(m, c) && ActionRead(m, c) && ClassRead(m, c.permitClass) {
      assert forall k | k in STRING_KEYS :: StringAt(m, k).Some?;
    }
  }

  /** The claims a document decodes to are exactly those that say what its members say. */
  lemma ClaimsExact(v: Value, c: Claims)
    ensures DecodeClaims(v) == Some(c) <==> ClaimsSay(v, c)
  {
    hide IdentitySays, ActionSays, ClassSays, NumbersSay, ObligationsSay, IdentityRead, ActionRead, ClassRead,
      NumbersRead, StringAt, IntAt, BoolAt, DecodeObligations;
    if v.Obj? && v.members.Keys <= STRING_KEYS + OTHER_KEYS {
      DecodesToRead(v, c);
      IdentityExact(v.members, c);
      ActionExact(v.members, c);
      ClassExact(v.members, c.permitClass);
      NumbersExact(v.members, c);
    }
  }

  // ---------------------------------------------------------------- acceptance

  /** The key signed the first two parts, and the third is that signature in its one spelling. */
  ghost predicate Signed(scheme: Scheme, publicKey: Bytes, header: string, payload: string, part: string) {
    exists signature: Bytes :: SignedWith(scheme, publicKey, header, payload, part, signature)
  }

  predicate SignedWith(scheme: Scheme, publicKey: Bytes, header: string, payload: string, part: string,
                       signature: Bytes) {
    && part == Base64.Encode(signature) && |signature| == 64
    && scheme.verify(publicKey, Utf8.Encode(header + "." + payload), signature)
  }

  /** The token as a whole: its size, its three parts, the signature over the first two, what they say, and the
      agreement between header and claims. */
  ghost predicate Authentic(scheme: Scheme, publicKey: Bytes, token: string, c: Claims, header: string,
                            payload: string, signature: Bytes, h: Header)
  {
    && |publicKey| == 32 && ThreeParts(token, header, payload, Base64.Encode(signature))
    && SignedWith(scheme, publicKey, header, payload, Base64.Encode(signature), signature)
    && (exists v :: Encodes(header, v) && HeaderSays(v, h))
    && (exists v :: Encodes(payload, v) && ClaimsSay(v, c))
    && h.algorithm == "EdDSA" && h.tokenType == "AEGIS-PERMIT" && h.keyID == c.signingKeyID
    && h.version == (if c.executionBinding == "" then 1 else 2) && ValidClaims(c)
  }

  lemma SignatureExact(scheme: Scheme, publicKey: Bytes, header: string, payload: string, part: string)
    ensures Signed(scheme, publicKey, header, payload, part) <==>
            && Base64.Decode(part).Some?
            && SignedWith(scheme, publicKey, header, payload, part, Base64.Decode(part).value)
  {
    hide Base64.Decode, Base64.Encode, Utf8.Encode;
    forall signature: Bytes ensures Base64.Decode(Base64.Encode(signature)) == Some(signature) {
      Base64.RoundTrip(signature);
    }
  }

  /** A token whose third part is not the key's signature over the first two is refused as such, whatever its
      header and its claims say. */
  lemma UnsignedIsRefused(scheme: Scheme, publicKey: Bytes, token: string, header: string, payload: string,
                          part: string)
    requires |publicKey| == 32 && ThreeParts(token, header, payload, part)
    requires !Signed(scheme, publicKey, header, payload, part)
    ensures VerifyToken(scheme, publicKey, token) == Err(InvalidTokenSignature)
  {
    hide Base64.Decode, Base64.Encode, Utf8.Encode, TokenParts, ThreeParts, ReadDocument, DecodeHeader, DecodeClaims,
      ValidClaims, SupportedHeader;
    PartsExact(token, header, payload, part);
    SignatureExact(scheme, publicKey, header, payload, part);
  }

  /** Exactly the authentic tokens are accepted, with exactly the claims they say. */
  lemma VerifiesExactly(scheme: Scheme, publicKey: Bytes, token: string, c: Claims)
    ensures VerifyToken(scheme, publicKey, token) == Ok(c) <==>
            exists header, payload, signature, h ::
              Authentic(scheme, publicKey, token, c, header, payload, signature, h)
  {
    hide Base64.Decode, Base64.Encode, Utf8.Encode, TokenParts, ThreeParts, ReadDocument, DecodeHeader, DecodeClaims,
      ValidClaims, SupportedHeader, Encodes, HeaderSays, ClaimsSay, Authentic, SignedWith;
    if VerifyToken(scheme, publicKey, token) == Ok(c) {
      var (header, payload, part) := TokenParts(token).value;
      AcceptedIsAuthentic(scheme, publicKey, token, c, header, payload, part);
    }
    forall header, payload, signature, h | Authentic(scheme, publicKey, token, c, header, payload, signature, h)
      ensures VerifyToken(scheme, publicKey, token) == Ok(c)
    {
      AuthenticIsAccepted(scheme, publicKey, token, c, header, payload, signature, h);
    }
  }

  lemma AcceptedIsAuthentic(scheme: Scheme, publicKey: Bytes, token: string, c: Claims, header: string,
                            payload: string, part: string)
    requires VerifyToken(scheme, publicKey, token) == Ok(c) && TokenParts(token) == Some((header, payload, part))
    ensures Base64.Decode(part).Some? && ReadDocument(header).Some? && DecodeHeader(ReadDocument(header).value).Some?
    ensures Authentic(scheme, publicKey, token, c, header, payload, Base64.Decode(part).value,
                      DecodeHeader(ReadDocument(header).value).value)
  {
    hide Base64.Decode, Base64.Encode, Utf8.Encode, TokenParts, ThreeParts, ReadDocument, DecodeHeader, DecodeClaims,
      ValidClaims, ValidKeyID, Encodes, HeaderSays, ClaimsSay;
    PartsExact(token, header, payload, part);
    var h := DecodeHeader(ReadDocument(header).value).value;
    DocumentExact(header, ReadDocument(header).value);
    DocumentExact(payload, ReadDocument(payload).value);
    HeaderExact(ReadDocument(header).value, h);
    ClaimsExact(ReadDocument(payload).value, c);
  }

  lemma AuthenticIsAccepted(scheme: Scheme, publicKey: Bytes, token: string, c: Claims, header: string,
                            payload: string, signature: Bytes, h: Header)
    requires Authentic(scheme, publicKey, token, c, header, payload, signature, h)
    ensures VerifyToken(scheme, publicKey, token) == Ok(c)
  {
    TokenSize.SigningKeyValid(c);
    hide Base64.Decode, Base64.Encode, Utf8.Encode, TokenParts, ThreeParts, ReadDocument, DecodeHeader, DecodeClaims,
      ValidClaims, ValidKeyID, Encodes, HeaderSays, ClaimsSay, VerifyToken;
    var v :| Encodes(header, v) && HeaderSays(v, h);
    var w :| Encodes(payload, w) && ClaimsSay(w, c);
    PartsExact(token, header, payload, Base64.Encode(signature));
    Base64.RoundTrip(signature);
    DocumentExact(header, v);
    DocumentExact(payload, w);
    HeaderExact(v, h);
    ClaimsExact(w, c);
    AcceptedWhen(scheme, publicKey, token, c, header, payload, signature, h, v, w);
  }

  lemma AcceptedWhen(scheme: Scheme, publicKey: Bytes, token: string, c: Claims, header: string, payload: string,
                     signature: Bytes, h: Header, v: Value, w: Value)
    requires |publicKey| == 32 && TokenParts(token) == Some((header, payload, Base64.Encode(signature)))
    requires Base64.Decode(Base64.Encode(signature)) == Some(signature)
    requires SignedWith(scheme, publicKey, header, payload, Base64.Encode(signature), signature)
    requires ReadDocument(header) == Some(v) && ReadDocument(payload) == Some(w)
    requires DecodeHeader(v) == Some(h) && DecodeClaims(w) == Some(c) && ValidClaims(c) && ValidKeyID(h.keyID)
    requires h.algorithm == "EdDSA" && h.tokenType == "AEGIS-PERMIT" && h.keyID == c.signingKeyID
    requires h.version == if c.executionBinding == "" then 1 else 2
    ensures VerifyToken(scheme, publicKey, token) == Ok(c)
  {
    hide Base64.Decode, Base64.Encode, Utf8.Encode, TokenParts, ReadDocument, DecodeHeader, DecodeClaims, ValidClaims,
      ValidKeyID;
  }

  /** Signing refuses exactly a key of the wrong size, claims that are not valid and a key id that is not theirs. */
  lemma SignsExactly(scheme: Scheme, privateKey: Bytes, keyID: string, c: Claims)
    ensures SignToken(scheme, privateKey, keyID, c).Ok? <==>
            |privateKey| == 64 && ValidClaims(c) && keyID == c.signingKeyID
  {
    hide EncodeJSON, Utf8.Encode, Base64.Encode;
    if ValidClaims(c) {
      TokenSize.SigningKeyValid(c);
    }
  }

  /** The key id is read, before any signature is checked, exactly from a supported header. */
  lemma KeyIDExactly(token: string, keyID: string)
    ensures TokenKeyID(token) == Ok(keyID) <==>
            exists header, payload, part, v, h ::
              && ThreeParts(token, header, payload, part) && Encodes(header, v) && HeaderSays(v, h)
              && h == Header("EdDSA", "AEGIS-PERMIT", h.version, keyID) && h.version in {1, 2} && ValidKeyID(keyID)
  {
    hide TokenParts, ThreeParts, ReadDocument, DecodeHeader, ValidKeyID, Encodes, HeaderSays;
    if TokenKeyID(token) == Ok(keyID) {
      var (header, payload, part) := TokenParts(token).value;
      var v := ReadDocument(header).value;
      PartsExact(token, header, payload, part);
      DocumentExact(header, v);
      HeaderExact(v, DecodeHeader(v).value);
    }
    forall header, payload, part, v, h |
      && ThreeParts(token, header, payload, part) && Encodes(header, v) && HeaderSays(v, h)
      && h == Header("EdDSA", "AEGIS-PERMIT", h.version, keyID) && h.version in {1, 2} && ValidKeyID(keyID)
      ensures TokenKeyID(token) == Ok(keyID)
    {
      PartsExact(token, header, payload, part);
      DocumentExact(header, v);
      HeaderExact(v, h);
    }
  }
}
