/**
  The action a permit binds (internal/canonicalaction/action.go: Action, Validate,
  CanonicalJSON, Digest).  Strings are valid Unicode: Validate refuses any other Go string.
 */
module CanonicalAction {
  import opened Wrappers
  import opened Json
  import opened Canonical
  import Utf8

  type Bytes = seq<Utf8.Byte>

  /** SHA-256 followed by hexadecimal encoding, left abstract. */
  type Hash = Bytes -> string

  datatype Action = Action(
    principalID: string,
    agentID: string,
    workloadID: string,
    delegation: string,
    tool: string,
    capability: string,
    resource: string,
    operation: string,
    profileID: string,
    audience: string,
    executionBinding: string,
    arguments: Bytes)

  // ---------------------------------------------------------------- validation

  /** unicode.IsControl. */
  predicate IsControl(c: char) { c < ' ' || '\U{7F}' <= c <= '\U{9F}' }

  /** At most this many bytes, and no control character. */
  predicate BoundedText(s: string, limit: nat) {
    Utf8.Size(s) <= limit && forall i | 0 <= i < |s| :: ' ' <= s[i] <= '~' || s[i] >= '\U{A0}'
  }

  predicate IsLowerHex(c: char) { '0' <= c <= '9' || 'a' <= c <= 'f' }

  /** "sha256:" and sixty-four lowercase hexadecimal digits. */
  predicate IsDigest(s: string) {
    |s| == 71 && s[..7] == "sha256:" && forall i | 7 <= i < 71 :: IsLowerHex(s[i])
  }

  predicate Valid(a: Action) {
    && a.principalID != "" && BoundedText(a.principalID, 512)
    && a.agentID != "" && BoundedText(a.agentID, 512)
    && a.workloadID != "" && BoundedText(a.workloadID, 512)
    && a.tool != "" && BoundedText(a.tool, 512)
    && a.capability != "" && BoundedText(a.capability, 512)
    && a.resource != "" && BoundedText(a.resource, 2048)
    && a.operation != "" && BoundedText(a.operation, 512)
    && (a.delegation != "" ==> IsDigest(a.delegation))
    && (a.executionBinding != "" ==> IsDigest(a.executionBinding))
    && (a.profileID == "" <==> a.audience == "")
    && BoundedText(a.profileID, 256)
    && BoundedText(a.audience, 1024)
  }

  method CheckText(s: string, limit: nat) returns (ok: bool)
    ensures ok <==> BoundedText(s, limit)
  {
    if Utf8.Size(s) > limit {
      return false;
    }
    var i := 0;
    while i < |s|
      invariant i <= |s|
      invariant forall j | 0 <= j < i :: !IsControl(s[j])
    {
      if IsControl(s[i]) {
        return false;
      }
      i := i + 1;
    }
    return true;
  }

  /** A table of required fields, each with its limit. */
  method CheckFields(fields: seq<(string, nat)>) returns (ok: bool)
    ensures ok <==> forall i | 0 <= i < |fields| :: fields[i].0 != "" && BoundedText(fields[i].0, fields[i].1)
  {
    hide BoundedText;
    var i := 0;
    while i < |fields|
      invariant i <= |fields|
      invariant forall j | 0 <= j < i :: fields[j].0 != "" && BoundedText(fields[j].0, fields[j].1)
    {
      if fields[i].0 == "" {
        return false;
      }
      var bounded := CheckText(fields[i].0, fields[i].1);
      if !bounded {
        return false;
      }
      i := i + 1;
    }
    return true;
  }

  /** Action.Validate. */
  method ValidateAction(a: Action) returns (ok: bool)
    ensures ok <==> Valid(a)
  {
    hide BoundedText, IsDigest;
    var fields := [(a.principalID, 512), (a.agentID, 512), (a.workloadID, 512), (a.tool, 512), (a.capability, 512),
                   (a.resource, 2048), (a.operation, 512)];
    ok := CheckFields(fields);
    if !ok {
      return;
    }
    assert fields[0] == (a.principalID, 512) && fields[1] == (a.agentID, 512) && fields[2] == (a.workloadID, 512);
    assert fields[3] == (a.tool, 512) && fields[4] == (a.capability, 512) && fields[5] == (a.resource, 2048);
    assert fields[6] == (a.operation, 512);
    if a.delegation != "" && !IsDigest(a.delegation) {
      return false;
    }
    if a.executionBinding != "" && !IsDigest(a.executionBinding) {
      return false;
    }
    if (a.profileID == "") != (a.audience == "") {
      return false;
    }
    var profile := CheckText(a.profileID, 256);
    var audience := CheckText(a.audience, 1024);
    return profile && audience;
  }

  // ---------------------------------------------------------------- canonical form

  datatype ActionError = InvalidAction | BadArguments(error: JsonError)

  /** Arguments as parsed: missing arguments count as the empty object. */
  function ParseArguments(arguments: Bytes): Result<Value, JsonError> {
    match Utf8.Decode(arguments)
    case None => Err(InvalidJSON)
    case Some(s) => var trimmed := TrimSpace(s); ParseText(if trimmed == "" then "{}" else trimmed)
  }

  function ActionValue(a: Action, arguments: Value): Value {
    var members := map[
      "agent_id" := Str(a.agentID),
      "arguments" := arguments,
      "capability" := Str(a.capability),
      "delegated_authority_fingerprint" := Str(a.delegation),
      "operation" := Str(a.operation),
      "profile_id" := Str(a.profileID),
      "principal_id" := Str(a.principalID),
      "resource" := Str(a.resource),
      "tool" := Str(a.tool),
      "audience" := Str(a.audience),
      "workload_id" := Str(a.workloadID)];
    Obj(if a.executionBinding == "" then members else members["execution_binding" := Str(a.executionBinding)])
  }

  ghost function CanonicalJSON(a: Action): Result<Bytes, ActionError> {
    if !Valid(a) then Err(InvalidAction)
    else match ParseArguments(a.arguments)
      case Err(error) => Err(BadArguments(error))
      case Ok(v) => Ok(Utf8.Encode(Print(ActionValue(a, v))))
  }

  ghost function Digest(hash: Hash, a: Action): Result<string, ActionError> {
    match CanonicalJSON(a)
    case Err(error) => Err(error)
    case Ok(bytes) => Ok("sha256:" + hash(bytes))
  }

  /** The eleven scalar fields of two actions agree. */
  predicate SameScalars(a: Action, b: Action) {
    a.(arguments := []) == b.(arguments := [])
  }

  lemma ArgumentsWellFormed(arguments: Bytes)
    requires ParseArguments(arguments).Ok?
    ensures WellFormed(ParseArguments(arguments).value, MAX_JSON_DEPTH)
  {
    hide ParseText;
    var trimmed := TrimSpace(Utf8.Decode(arguments).value);
    ParsedWellFormed(if trimmed == "" then "{}" else trimmed);
  }

  /** What accepted arguments denote. */
  ghost function ArgumentsMeaning(arguments: Bytes): Meaning
    requires ParseArguments(arguments).Ok?
  {
    ArgumentsWellFormed(arguments);
    MeaningOf(ParseArguments(arguments).value, MAX_JSON_DEPTH)
  }

  lemma MembersAreText(a: Action, arguments: Value)
    ensures ActionValue(a, arguments).Obj?
    ensures forall k | k in ActionValue(a, arguments).members ::
              ActionValue(a, arguments).members[k] == arguments || ActionValue(a, arguments).members[k].Str?
  {
  }

  lemma TextWellFormed(v: Value, budget: nat)
    requires v.Str?
    ensures WellFormed(v, budget)
  {
  }

  lemma ObjectWellFormed(v: Value, budget: nat)
    requires v.Obj? && forall k | k in v.members :: WellFormed(v.members[k], budget)
    ensures WellFormed(v, budget + 1)
  {
  }

  lemma ActionWellFormed(a: Action, arguments: Value)
    requires WellFormed(arguments, MAX_JSON_DEPTH)
    ensures WellFormed(ActionValue(a, arguments), MAX_JSON_DEPTH + 1)
  {
    hide ActionValue, WellFormed;
    MembersAreText(a, arguments);
    var v := ActionValue(a, arguments);
    forall k | k in v.members ensures WellFormed(v.members[k], MAX_JSON_DEPTH) {
      if v.members[k].Str? {
        TextWellFormed(v.members[k], MAX_JSON_DEPTH);
      }
    }
    ObjectWellFormed(v, MAX_JSON_DEPTH);
  }

  lemma IdentityMembers(a: Action, v: Value)
    ensures var m := ActionValue(a, v).members;
            && "agent_id" in m && m["agent_id"] == Str(a.agentID) && "arguments" in m && m["arguments"] == v
            && "capability" in m && m["capability"] == Str(a.capability) && "operation" in m
               && m["operation"] == Str(a.operation)
            && "delegated_authority_fingerprint" in m && m["delegated_authority_fingerprint"] == Str(a.delegation)
            && "profile_id" in m && m["profile_id"] == Str(a.profileID)
  {
  }

  lemma ScopeMembers(a: Action, v: Value)
    ensures var m := ActionValue(a, v).members;
            && "principal_id" in m && m["principal_id"] == Str(a.principalID) && "resource" in m
               && m["resource"] == Str(a.resource)
            && "tool" in m && m["tool"] == Str(a.tool) && "audience" in m && m["audience"] == Str(a.audience)
            && "workload_id" in m && m["workload_id"] == Str(a.workloadID)
            && ("execution_binding" in m <==> a.executionBinding != "")
            && (a.executionBinding != "" ==> m["execution_binding"] == Str(a.executionBinding))
  {
  }

  /** The members of the canonical object determine every field. */
  lemma ActionValueInjective(a: Action, v: Value, b: Action, w: Value)
    ensures ActionValue(a, v) == ActionValue(b, w) <==> SameScalars(a, b) && v == w
  {
    if SameScalars(a, b) && v == w {
      assert ActionValue(a, v) == ActionValue(b, w);
    } else if ActionValue(a, v) == ActionValue(b, w) {
      ActionValueDetermines(a, v, b, w);
    }
  }

  lemma ActionValueDetermines(a: Action, v: Value, b: Action, w: Value)
    requires ActionValue(a, v) == ActionValue(b, w)
    ensures SameScalars(a, b) && v == w
  {
    hide ActionValue;
    IdentityMembers(a, v);
    IdentityMembers(b, w);
    ScopeMembers(a, v);
    ScopeMembers(b, w);
  }

  /** Two actions have the same canonical bytes exactly when all eleven scalar fields agree and the
      arguments denote the same value. */
  lemma CanonicalJSONInjective(a: Action, b: Action)
    requires CanonicalJSON(a).Ok? && CanonicalJSON(b).Ok?
    ensures CanonicalJSON(a) == CanonicalJSON(b) <==>
            SameScalars(a, b) && ArgumentsMeaning(a.arguments) == ArgumentsMeaning(b.arguments)
  {
    hide Valid, ParseArguments, ActionValue, CanonTree, MeaningOf, Utf8.Encode;
    var v, w := ParseArguments(a.arguments).value, ParseArguments(b.arguments).value;
    ArgumentsWellFormed(a.arguments);
    ArgumentsWellFormed(b.arguments);
    ActionWellFormed(a, v);
    ActionWellFormed(b, w);
    MeaningInjective(v, w, MAX_JSON_DEPTH);
    ActionValueInjective(a, v, b, w);
    if CanonicalJSON(a) == CanonicalJSON(b) {
      Utf8.EncodeInjective(Print(ActionValue(a, v)), Print(ActionValue(b, w)));
      PrintInjective(ActionValue(a, v), ActionValue(b, w), MAX_JSON_DEPTH + 1);
    }
  }

  /** Arguments are accepted exactly when they are UTF-8 and, without the white space around them, nothing or an
      acceptable JSON text; an action has a canonical form exactly when it is valid and its arguments are accepted. */
  lemma CanonicalJSONAccepts(hash: Hash, a: Action)
    ensures ParseArguments(a.arguments).Ok? <==>
            && Utf8.Decode(a.arguments).Some?
            && var s := TrimSpace(Utf8.Decode(a.arguments).value); s == "" || AcceptableText(s)
    ensures CanonicalJSON(a).Ok? <==> Valid(a) && ParseArguments(a.arguments).Ok?
    ensures Digest(hash, a).Ok? <==> CanonicalJSON(a).Ok?
  {
    hide Utf8.Decode, Utf8.Encode, TrimSpace, ParseText, AcceptableText, Valid, Print;
    if Utf8.Decode(a.arguments).Some? {
      ParseIsExact(TrimSpace(Utf8.Decode(a.arguments).value));
      BracesParse();
      EmptyIsNoText();
    }
  }

  lemma BracesParse()
    ensures ParseText("{}").Ok?
  {
  }

  lemma EmptyIsNoText()
    ensures !AcceptableText("")
  {
    hide Utf8.Encode;
  }

  /** Arguments that are missing and arguments that are the empty object are one action. */
  lemma MissingArguments(a: Action, spaces: string)
    requires TrimSpace(spaces) == ""
    ensures CanonicalJSON(a.(arguments := Utf8.Encode(spaces))) == CanonicalJSON(a.(arguments := Utf8.Encode("{}")))
  {
    hide ParseText;
    Utf8.DecodeEncode(spaces);
    Utf8.DecodeEncode("{}");
    var braces := "{}";
    assert !IsUnicodeSpace(braces[0]) && !IsUnicodeSpace(braces[1]);
    assert TrimSpace(braces) == braces;
  }

  /** When the hash separates the two canonical forms, equal digests mean the same action. */
  lemma DigestBinds(hash: Hash, a: Action, b: Action)
    requires Digest(hash, a).Ok? && Digest(hash, a) == Digest(hash, b)
    requires hash(CanonicalJSON(a).value) == hash(CanonicalJSON(b).value) ==>
               CanonicalJSON(a).value == CanonicalJSON(b).value
    ensures SameScalars(a, b) && ArgumentsMeaning(a.arguments) == ArgumentsMeaning(b.arguments)
  {
    hide CanonicalJSON, SameScalars, ArgumentsMeaning;
    var p, q := "sha256:" + hash(CanonicalJSON(a).value), "sha256:" + hash(CanonicalJSON(b).value);
    assert p[7..] == hash(CanonicalJSON(a).value) && q[7..] == hash(CanonicalJSON(b).value);
    CanonicalJSONInjective(a, b);
  }
}
