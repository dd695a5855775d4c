/**
  Server-owned resolution of a proposed call (internal/semanticaction/prepared.go, registry.go).

  A profile is compiled into the server: what its Resolve does is arbitrary here, so everything
  below holds for any profile.  Its execution binding is computed once, when it is constructed.
 */
module Prepared {
  import opened Wrappers
  import opened Json
  import opened Canonical
  import opened CanonicalAction
  import Codec
  import Utf8

  /** A caller's proposal after identity intake. */
  datatype Input = Input(
    principalID: string,
    agentID: string,
    workloadID: string,
    delegation: string,
    tool: string,
    capability: string,
    resource: string,
    operation: string,
    profileID: string,
    audience: string,
    arguments: Bytes)

  datatype PolicyFacts = PolicyFacts(sideEffect: string, bytes: int)

  datatype Resolved = Resolved(action: Action, normalizedArguments: Bytes, upstreamURL: string, facts: PolicyFacts)

  datatype Profile = Profile(
    profileID: string,
    tool: string,
    upstreamURL: string,
    config: Tree,
    binding: string,
    resolve: Input -> Result<Resolved, string>)

  type Registry = map<string, Profile>

  datatype PrepareError =
    | Rejected(code: string)
    | MissingFacts
    | ScopeChanged
    | InconsistentBinding
    | UnreadableArguments(error: JsonError)
    | ArgumentsDiffer
    | InvalidPreparedAction

  datatype PreparedExecution = PreparedExecution(action: Action, arguments: Bytes, upstreamURL: string,
                                                 facts: PolicyFacts)

  // ---------------------------------------------------------------- execution binding

  /** The document the binding digests, as json.Marshal spells it. */
  function BindingTree(config: Tree, upstreamURL: string): Tree {
    TObj([Field("credential_mode", TStr("anonymous")),
          Field("profile_config", config),
          Field("schema", TStr("aegis.prepared-execution/v2")),
          Field("upstream_url", TStr(upstreamURL))])
  }

  /** The canonical bytes of the binding document, before hashing. */
  ghost function BindingDocument(config: Tree, upstreamURL: string): Result<Bytes, JsonError> {
    CanonicalizeJSON(Utf8.Encode(Render(BindingTree(config, upstreamURL))))
  }

  ghost function ExecutionBinding(hash: Hash, config: Tree, upstreamURL: string): Result<string, JsonError> {
    match BindingDocument(config, upstreamURL)
    case Err(error) => Err(error)
    case Ok(document) => Ok("sha256:" + hash(document))
  }

  /** What the profile constructors establish: the configuration is a well-formed document and the
      stored binding is its digest together with the route. */
  ghost predicate Constructed(hash: Hash, p: Profile) {
    && ValidTree(p.config, MAX_JSON_DEPTH - 1)
    && ExecutionBinding(hash, p.config, p.upstreamURL) == Ok(p.binding)
  }

  /** A registry as built at start-up: each profile is found under its own tool name. */
  ghost predicate Built(hash: Hash, r: Registry) {
    forall tool | tool in r :: r[tool].tool == tool && Constructed(hash, r[tool])
  }

  // ---------------------------------------------------------------- prepare

  /** The identity and the scope of an action are the caller's. */
  predicate KeepsScope(a: Action, input: Input) {
    && a.principalID == input.principalID && a.agentID == input.agentID && a.workloadID == input.workloadID
    && a.delegation == input.delegation && a.capability == input.capability && a.resource == input.resource
    && a.operation == input.operation
  }

  ghost function Prepare(r: Registry, input: Input): Result<PreparedExecution, PrepareError> {
    if input.tool !in r then Err(Rejected("SEMANTIC_TOOL_UNMAPPED"))
    else
      var profile := r[input.tool];
      match profile.resolve(input)
      case Err(code) => Err(Rejected(code))
      case Ok(resolved) =>
        if resolved.facts.sideEffect == "" || resolved.facts.bytes < 0 then Err(MissingFacts)
        else if resolved.action.principalID != input.principalID || resolved.action.agentID != input.agentID
             || resolved.action.workloadID != input.workloadID || resolved.action.delegation != input.delegation
             || resolved.action.capability != input.capability || resolved.action.resource != input.resource
             || resolved.action.operation != input.operation then Err(ScopeChanged)
        else if resolved.action.tool != profile.tool || resolved.action.profileID != profile.profileID
             || resolved.upstreamURL != profile.upstreamURL || profile.binding == "" then Err(InconsistentBinding)
        else match CanonicalizeJSON(resolved.normalizedArguments)
          case Err(error) => Err(UnreadableArguments(error))
          case Ok(canonical) =>
            if CanonicalizeJSON(resolved.action.arguments) != Ok(canonical) then Err(ArgumentsDiffer)
            else
              var action := resolved.action.(arguments := resolved.normalizedArguments,
                                             executionBinding := profile.binding);
              if !Valid(action) then Err(InvalidPreparedAction)
              else Ok(PreparedExecution(action, resolved.normalizedArguments, resolved.upstreamURL, resolved.facts))
  }

  /** Registry.Prepare, comparing canonical bytes written in place. */
  method PrepareExecution(r: Registry, input: Input) returns (p: Result<PreparedExecution, PrepareError>)
    ensures p == Prepare(r, input)
  {
    hide Valid, CanonicalizeJSON;
    if input.tool !in r {
      return Err(Rejected("SEMANTIC_TOOL_UNMAPPED"));
    }
    var profile := r[input.tool];
    var resolution := profile.resolve(input);
    if resolution.Err? {
      return Err(Rejected(resolution.error));
    }
    var resolved := resolution.value;
    if resolved.facts.sideEffect == "" || resolved.facts.bytes < 0 {
      return Err(MissingFacts);
    }
    if resolved.action.principalID != input.principalID || resolved.action.agentID != input.agentID
       || resolved.action.workloadID != input.workloadID || resolved.action.delegation != input.delegation
       || resolved.action.capability != input.capability || resolved.action.resource != input.resource
       || resolved.action.operation != input.operation {
      return Err(ScopeChanged);
    }
    if resolved.action.tool != profile.tool || resolved.action.profileID != profile.profileID
       || resolved.upstreamURL != profile.upstreamURL || profile.binding == "" {
      return Err(InconsistentBinding);
    }
    var arguments := Codec.CanonicalizeBytes(resolved.normalizedArguments);
    if arguments.Err? {
      return Err(UnreadableArguments(arguments.error));
    }
    var actionArguments := Codec.CanonicalizeBytes(resolved.action.arguments);
    if actionArguments.Err? || actionArguments.value != arguments.value {
      return Err(ArgumentsDiffer);
    }
    var action := resolved.action.(arguments := resolved.normalizedArguments, executionBinding := profile.binding);
    var valid := ValidateAction(action);
    if !valid {
      return Err(InvalidPreparedAction);
    }
    return Ok(PreparedExecution(action, resolved.normalizedArguments, resolved.upstreamURL, resolved.facts));
  }

  /** What a proposal needs to be prepared: a profile for its tool whose resolution keeps the scope and the profile's
      own tool, id and route, states its facts, and gives arguments that canonicalize to the bytes of the action's
      own; then those arguments and the profile's binding go into the action, which must be valid. */
  ghost predicate Prepares(r: Registry, input: Input, p: PreparedExecution) {
    && input.tool in r && r[input.tool].resolve(input).Ok?
    && var profile, resolved := r[input.tool], r[input.tool].resolve(input).value;
       && resolved.facts.sideEffect != "" && resolved.facts.bytes >= 0 && KeepsScope(resolved.action, input)
       && resolved.action.tool == profile.tool && resolved.action.profileID == profile.profileID
       && resolved.upstreamURL == profile.upstreamURL && profile.binding != ""
       && CanonicalizeJSON(p.arguments).Ok?
       && CanonicalizeJSON(resolved.action.arguments) == CanonicalizeJSON(p.arguments)
       && p == PreparedExecution(p.action, resolved.normalizedArguments, profile.upstreamURL, resolved.facts)
       && p.action == resolved.action.(arguments := p.arguments, executionBinding := profile.binding) && Valid(p.action)
  }

  /** A proposal is prepared exactly when it has what it needs. */
  lemma PrepareExactly(r: Registry, input: Input, p: PreparedExecution)
    ensures Prepare(r, input) == Ok(p) <==> Prepares(r, input, p)
  {
    hide Valid, CanonicalizeJSON;
  }

  /** Whatever a profile does, the prepared action keeps the caller's identity and scope, carries
      the arguments that will be dispatched and the binding of the route they will be sent to, and
      can be digested. */
  lemma PreparedIsBound(hash: Hash, r: Registry, input: Input)
    requires Built(hash, r) && Prepare(r, input).Ok?
    ensures var p := Prepare(r, input).value;
            && input.tool in r && Valid(p.action) && KeepsScope(p.action, input)
            && p.action.tool == input.tool && p.action.arguments == p.arguments
            && p.upstreamURL == r[input.tool].upstreamURL
            && ExecutionBinding(hash, r[input.tool].config, p.upstreamURL) == Ok(p.action.executionBinding)
            && ParseArguments(p.arguments).Ok? && Digest(hash, p.action).Ok?
  {
    hide Valid, ExecutionBinding, ParseText, ActionValue, Print;
    var p := Prepare(r, input).value;
    assert Constructed(hash, r[input.tool]);
    EmptyTextIsRefused();
  }

  /** Any registry, constructed properly or not, keeps the scope and refuses an empty binding. */
  lemma PreparedKeepsScope(r: Registry, input: Input)
    requires Prepare(r, input).Ok?
    ensures KeepsScope(Prepare(r, input).value.action, input) && Prepare(r, input).value.action.executionBinding != ""
  {
    hide Valid, CanonicalizeJSON;
  }

  lemma EmptyTextIsRefused()
    ensures ParseText("").Err?
  {
  }

  // ---------------------------------------------------------------- the binding separates routes

  /** The hash does not confuse these two inputs. */
  predicate Separates(hash: Hash, x: Bytes, y: Bytes) {
    hash(x) == hash(y) ==> x == y
  }

  lemma SameDigestText(hash: Hash, x: Bytes, y: Bytes)
    requires "sha256:" + hash(x) == "sha256:" + hash(y) && Separates(hash, x, y)
    ensures x == y
  {
    assert ("sha256:" + hash(x))[7..] == hash(x) && ("sha256:" + hash(y))[7..] == hash(y);
  }

  /** The binding document denotes exactly its four members. */
  lemma BindingDenotes(config: Tree, upstreamURL: string)
    requires ValidTree(config, MAX_JSON_DEPTH - 1)
    ensures var t := BindingTree(config, upstreamURL);
            && ValidTree(t, MAX_JSON_DEPTH)
            && Denote(t, MAX_JSON_DEPTH) == Obj(map[
                 "credential_mode" := Str("anonymous"),
                 "profile_config" := Denote(config, MAX_JSON_DEPTH - 1),
                 "schema" := Str("aegis.prepared-execution/v2"),
                 "upstream_url" := Str(upstreamURL)])
  {
    var budget := MAX_JSON_DEPTH - 1;
    var fields := BindingTree(config, upstreamURL).fields;
    forall i | 0 <= i < |fields| ensures ValidTree(fields[i].tree, budget) {
      assert fields[i].tree == config || fields[i].tree.TStr?;
    }
    assert fields[1..][1..] == fields[2..] && fields[2..][1..] == fields[3..] && fields[3..][1..] == [];
    var one := map["credential_mode" := Str("anonymous")];
    var two := one["profile_config" := Denote(config, budget)];
    var three := two["schema" := Str("aegis.prepared-execution/v2")];
    assert DenoteFields(fields, budget, map[]) == DenoteFields(fields[1..], budget, one);
    assert DenoteFields(fields[1..], budget, one) == DenoteFields(fields[2..], budget, two);
    assert DenoteFields(fields[2..], budget, two) == DenoteFields(fields[3..], budget, three);
    var four := three["upstream_url" := Str(upstreamURL)];
    assert DenoteFields(fields[3..], budget, three) == DenoteFields([], budget, four) == four;
    assert DistinctKeys(fields);
    assert Denote(BindingTree(config, upstreamURL), MAX_JSON_DEPTH) == Obj(four);
  }

  lemma BindingDocumentPrints(config: Tree, upstreamURL: string)
    requires ValidTree(config, MAX_JSON_DEPTH - 1) && BindingDocument(config, upstreamURL).Ok?
    ensures ValidTree(BindingTree(config, upstreamURL), MAX_JSON_DEPTH)
    ensures var v := Denote(BindingTree(config, upstreamURL), MAX_JSON_DEPTH);
            WellFormed(v, MAX_JSON_DEPTH) && BindingDocument(config, upstreamURL) == Ok(Utf8.Encode(Print(v)))
  {
    hide ValidTree, Denote, BindingTree, Render, ReadValue, Print;
    var t := BindingTree(config, upstreamURL);
    BindingDenotes(config, upstreamURL);
    Utf8.DecodeEncode(Render(t));
    RenderTrimmed(t, MAX_JSON_DEPTH);
    ParseRendered(t);
    ParsedWellFormed(Render(t));
  }

  /** Two constructed profiles with one binding have the same route and the same configuration,
      when the hash separates their two documents. */
  lemma BindingSeparates(hash: Hash, p: Profile, q: Profile)
    requires Constructed(hash, p) && Constructed(hash, q) && p.binding == q.binding
    requires Separates(hash, BindingDocument(p.config, p.upstreamURL).value,
                       BindingDocument(q.config, q.upstreamURL).value)
    ensures p.upstreamURL == q.upstreamURL
    ensures Denote(p.config, MAX_JSON_DEPTH - 1) == Denote(q.config, MAX_JSON_DEPTH - 1)
  {
    hide ValidTree, Denote, BindingTree, BindingDocument, Print, WellFormed;
    SameDigestText(hash, BindingDocument(p.config, p.upstreamURL).value,
                   BindingDocument(q.config, q.upstreamURL).value);
    BindingDocumentPrints(p.config, p.upstreamURL);
    BindingDocumentPrints(q.config, q.upstreamURL);
    var v := Denote(BindingTree(p.config, p.upstreamURL), MAX_JSON_DEPTH);
    var w := Denote(BindingTree(q.config, q.upstreamURL), MAX_JSON_DEPTH);
    Utf8.EncodeInjective(Print(v), Print(w));
    PrintInjective(v, w, MAX_JSON_DEPTH);
    BindingDenotes(p.config, p.upstreamURL);
    BindingDenotes(q.config, q.upstreamURL);
    assert v.members["upstream_url"] == w.members["upstream_url"];
    assert v.members["profile_config"] == w.members["profile_config"];
  }

  /** The hash separates the two actions' canonical forms and the two routes' binding documents. */
  ghost predicate SeparatesPrepared(hash: Hash, r: Registry, input: Input, s: Registry, other: Input)
    requires Built(hash, r) && Built(hash, s) && Prepare(r, input).Ok? && Prepare(s, other).Ok?
  {
    PreparedIsBound(hash, r, input);
    PreparedIsBound(hash, s, other);
    && Separates(hash, CanonicalJSON(Prepare(r, input).value.action).value,
                 CanonicalJSON(Prepare(s, other).value.action).value)
    && Separates(hash, BindingDocument(r[input.tool].config, r[input.tool].upstreamURL).value,
                 BindingDocument(s[other.tool].config, s[other.tool].upstreamURL).value)
  }

  /** Equal action digests mean the same tool, the same route and the same argument value, even
      when the two sides hold different registries. */
  lemma PreparedAgree(hash: Hash, r: Registry, input: Input, s: Registry, other: Input)
    requires Built(hash, r) && Built(hash, s) && Prepare(r, input).Ok? && Prepare(s, other).Ok?
    requires SeparatesPrepared(hash, r, input, s, other)
    requires Digest(hash, Prepare(r, input).value.action) == Digest(hash, Prepare(s, other).value.action)
    ensures var p, q := Prepare(r, input).value, Prepare(s, other).value;
            && input.tool == other.tool && p.upstreamURL == q.upstreamURL && SameScalars(p.action, q.action)
            && ParseArguments(p.arguments).Ok? && ParseArguments(q.arguments).Ok?
            && ArgumentsMeaning(p.arguments) == ArgumentsMeaning(q.arguments)
  {
    hide Prepare, CanonicalJSON, ArgumentsMeaning, ParseArguments, BindingDocument, ExecutionBinding, ValidTree;
    var p, q := Prepare(r, input).value, Prepare(s, other).value;
    PreparedIsBound(hash, r, input);
    PreparedIsBound(hash, s, other);
    DigestBinds(hash, p.action, q.action);
    BindingSeparates(hash, r[input.tool], s[other.tool]);
  }
}
