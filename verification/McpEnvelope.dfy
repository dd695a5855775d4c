/**
  How the proxy reads a JSON-RPC request (internal/adapters/mcp/proxy.go): which members it accepts,
  which tool it authorizes, and what it forwards without a permit.

  Go's decoder matches struct fields to member names without regard to case, an upstream may not.
  The folding of names is an arbitrary function here, so the agreement below does not depend on
  which names fold together.
 */
module McpEnvelope {
  import opened Wrappers
  import opened Json
  import opened CanonicalAction
  import opened Prepared
  import Canonical
  import Utf8

  type Fold = string -> string

  const PROTOCOL_VERSION := "2026-07-28"
  const VERSION_KEY := "io.modelcontextprotocol/protocolVersion"

  // ---------------------------------------------------------------- reading members

  /** The member an exact-case reader finds. */
  function Exact(fields: seq<Field>, name: string): Option<Tree> {
    if fields == [] then None
    else if fields[|fields| - 1].key == name then Some(fields[|fields| - 1].tree)
    else Exact(fields[..|fields| - 1], name)
  }

  /** The struct field a member name belongs to: the exact name first, else one that folds alike. */
  predicate Matches(fold: Fold, names: set<string>, key: string, name: string) {
    key == name || (key !in names && fold(key) == fold(name))
  }

  /** The value Go's decoder leaves in the struct field: members are assigned in order, later ones win. */
  function Decoded(fold: Fold, names: set<string>, fields: seq<Field>, name: string): Option<Tree> {
    if fields == [] then None
    else if Matches(fold, names, fields[|fields| - 1].key, name) then Some(fields[|fields| - 1].tree)
    else Decoded(fold, names, fields[..|fields| - 1], name)
  }

  predicate OnlyNames(fields: seq<Field>, names: set<string>) {
    forall i | 0 <= i < |fields| :: fields[i].key in names
  }

  /** Once only the exact names are admitted, folding no longer matters. */
  lemma {:induction false} FoldingAgrees(fold: Fold, names: set<string>, fields: seq<Field>, name: string)
    requires OnlyNames(fields, names)
    ensures Decoded(fold, names, fields, name) == Exact(fields, name)
  {
    if fields != [] {
      FoldingAgrees(fold, names, fields[..|fields| - 1], name);
    }
  }

  /** Without the check they can differ: a member in another case shadows the exact one. */
  lemma FoldingCanShadow(fold: Fold)
    requires fold("METHOD") == fold("method")
    ensures var fields := [Field("method", TStr("tools/call")), Field("METHOD", TStr("ping"))];
            Decoded(fold, {"jsonrpc", "id", "method", "params"}, fields, "method") == Some(TStr("ping"))
            && Exact(fields, "method") == Some(TStr("tools/call"))
  {
    var fields := [Field("method", TStr("tools/call")), Field("METHOD", TStr("ping"))];
    assert "METHOD" != "method" by { assert "METHOD"[0] != "method"[0]; }
    assert fields[..1] == [Field("method", TStr("tools/call"))];
    assert Exact(fields[..1], "method") == Some(TStr("tools/call"));
    assert "METHOD" !in {"jsonrpc", "id", "method", "params"} by { assert "METHOD"[0] == 'M'; }
  }

  // ---------------------------------------------------------------- envelope and parameters

  const ENVELOPE_NAMES := {"jsonrpc", "id", "method", "params"}
  const PARAM_NAMES := {"name", "arguments", "_meta"}

  /** A string member; a missing one and null are the empty string. */
  function TextOf(member: Option<Tree>): Option<string> {
    match member
    case None => Some("")
    case Some(t) => if t.TNull? then Some("") else if t.TStr? then Some(t.s) else None
  }

  /** An object member; a missing one and null have no members. */
  function FieldsOf(member: Option<Tree>): Option<seq<Field>> {
    match member
    case None => Some([])
    case Some(t) => if t.TNull? then Some([]) else if t.TObj? then Some(t.fields) else None
  }

  predicate NotBlank(s: string) { Canonical.TrimSpace(s) != "" }

  datatype Rpc = Rpc(id: Option<Tree>, call: string, params: Option<Tree>)

  function ParseEnvelope(fold: Fold, body: Tree): Option<Rpc> {
    if !body.TObj? || !OnlyNames(body.fields, ENVELOPE_NAMES) then None
    else
      var version := TextOf(Decoded(fold, ENVELOPE_NAMES, body.fields, "jsonrpc"));
      var call := TextOf(Decoded(fold, ENVELOPE_NAMES, body.fields, "method"));
      if version != Some("2.0") || call.None? || !NotBlank(call.value) then None
      else Some(Rpc(Decoded(fold, ENVELOPE_NAMES, body.fields, "id"), call.value,
                    Decoded(fold, ENVELOPE_NAMES, body.fields, "params")))
  }

  datatype ToolCall = ToolCall(name: string, arguments: Option<Tree>, meta: seq<Field>)

  function ParseToolCall(fold: Fold, params: Option<Tree>): Option<ToolCall> {
    if params.None? || FieldsOf(params).None? || !OnlyNames(FieldsOf(params).value, PARAM_NAMES) then None
    else
      var fields := FieldsOf(params).value;
      var name := TextOf(Decoded(fold, PARAM_NAMES, fields, "name"));
      var arguments := Decoded(fold, PARAM_NAMES, fields, "arguments");
      var meta := FieldsOf(Decoded(fold, PARAM_NAMES, fields, "_meta"));
      if name.None? || !NotBlank(name.value) || (arguments.Some? && !arguments.value.TObj?) || meta.None? then None
      else Some(ToolCall(name.value, arguments, meta.value))
  }

  // ---------------------------------------------------------------- headers

  /** The values of each routing header, and whether any Mcp-Param-* header is present. */
  datatype Headers = Headers(version: seq<string>, call: seq<string>, name: seq<string>, hasParams: bool)

  function Single(values: seq<string>): Option<string> {
    if |values| > 1 then None else if |values| == 0 then Some("") else Some(Canonical.TrimSpace(values[0]))
  }

  datatype Routing = Routing(version: string, modern: bool, name: string)

  /** The protocol version the parameters state, read with exact names. */
  function MetaVersion(fields: seq<Field>): Option<string> {
    match Exact(fields, "_meta")
    case None => None
    case Some(meta) =>
      match FieldsOf(Some(meta))
      case None => None
      case Some(members) =>
        var version := TextOf(Exact(members, VERSION_KEY));
        if version.None? || version.value == "" then None else version
  }

  function ValidateRouting(h: Headers, rpc: Rpc): Option<Routing> {
    var version, call, name := Single(h.version), Single(h.call), Single(h.name);
    if version.None? || call.None? || name.None? || h.hasParams || FieldsOf(rpc.params).None? then None
    else if version.value != "" && version.value != PROTOCOL_VERSION && Utf8.Before(PROTOCOL_VERSION, version.value)
      then None
    else
      var fields := FieldsOf(rpc.params).value;
      var bodyName := TextOf(Exact(fields, "name"));
      if bodyName.None? then None
      else if version.value == PROTOCOL_VERSION then
        if call.value == "" || call.value != rpc.call
           || (rpc.call == "tools/call" && (name.value == "" || name.value != bodyName.value))
           || (rpc.call != "tools/call" && name.value != "" && name.value != bodyName.value)
           || MetaVersion(fields) != version then None
        else Some(Routing(version.value, true, bodyName.value))
      else if (call.value != "" && call.value != rpc.call) || (name.value != "" && name.value != bodyName.value)
        then None
      else Some(Routing(version.value, false, bodyName.value))
  }

  predicate MetaIsBound(meta: seq<Field>, version: string) {
    forall i | 0 <= i < |meta| :: meta[i].key == VERSION_KEY && meta[i].tree == TStr(version) && version != ""
  }

  predicate SafeMethod(call: string, modern: bool) {
    if modern then call == "server/discover" || call == "tools/list"
    else call == "initialize" || call == "notifications/initialized" || call == "ping" || call == "tools/list"
  }

  // ---------------------------------------------------------------- what the proxy decides

  /** The identity and scope headers of a call. */
  datatype Scope = Scope(principalID: string, agentID: string, workloadID: string, delegation: string,
                         capability: string, resource: string, operation: string, profileID: string, audience: string)

  function InputOf(scope: Scope, name: string, arguments: Bytes): Input {
    Input(scope.principalID, scope.agentID, scope.workloadID, scope.delegation, name, scope.capability, scope.resource,
          scope.operation, scope.profileID, scope.audience, arguments)
  }

  datatype Decision =
    | RejectRequest
    | ForwardSetup(rpc: Rpc)
    | Gate(rpc: Rpc, call: ToolCall, input: Input, prepared: PreparedExecution)

  /** The bytes of the arguments handed to the profile: missing ones are the empty object. */
  function ArgumentBytes(arguments: Option<Tree>): Bytes {
    Utf8.Encode(if arguments.None? then "{}" else Render(arguments.value))
  }

  ghost function Decide(fold: Fold, r: Registry, h: Headers, scope: Scope, body: Tree): Decision {
    match ParseEnvelope(fold, body)
    case None => RejectRequest
    case Some(rpc) =>
      match ValidateRouting(h, rpc)
      case None => RejectRequest
      case Some(routing) =>
        if rpc.call != "tools/call"
          then (if SafeMethod(rpc.call, routing.modern) then ForwardSetup(rpc) else RejectRequest)
        else match ParseToolCall(fold, rpc.params)
          case None => RejectRequest
          case Some(call) =>
            if !MetaIsBound(call.meta, routing.version) then RejectRequest
            else
              var input := InputOf(scope, call.name, ArgumentBytes(call.arguments));
              match Prepare(r, input)
              case Err(_) => RejectRequest
              case Ok(prepared) => Gate(rpc, call, input, prepared)
  }

  /** The envelope a request decodes to is the one its exact names spell. */
  lemma EnvelopeIsExact(fold: Fold, body: Tree)
    requires ParseEnvelope(fold, body).Some?
    ensures body.TObj?
    ensures var rpc := ParseEnvelope(fold, body).value;
            && TextOf(Exact(body.fields, "method")) == Some(rpc.call) && NotBlank(rpc.call)
            && rpc.params == Exact(body.fields, "params") && rpc.id == Exact(body.fields, "id")
            && TextOf(Exact(body.fields, "jsonrpc")) == Some("2.0")
  {
    FoldingAgrees(fold, ENVELOPE_NAMES, body.fields, "jsonrpc");
    FoldingAgrees(fold, ENVELOPE_NAMES, body.fields, "id");
    FoldingAgrees(fold, ENVELOPE_NAMES, body.fields, "method");
    FoldingAgrees(fold, ENVELOPE_NAMES, body.fields, "params");
  }

  lemma ToolCallIsExact(fold: Fold, params: Option<Tree>)
    requires ParseToolCall(fold, params).Some?
    ensures FieldsOf(params).Some?
    ensures var call, fields := ParseToolCall(fold, params).value, FieldsOf(params).value;
            && TextOf(Exact(fields, "name")) == Some(call.name) && call.arguments == Exact(fields, "arguments")
            && FieldsOf(Exact(fields, "_meta")) == Some(call.meta)
  {
    var fields := FieldsOf(params).value;
    FoldingAgrees(fold, PARAM_NAMES, fields, "name");
    FoldingAgrees(fold, PARAM_NAMES, fields, "arguments");
    FoldingAgrees(fold, PARAM_NAMES, fields, "_meta");
  }

  /** The method and the parameters an exact-case reader finds in a body. */
  function ExactMethod(body: Tree): Option<string>
    requires body.TObj?
  {
    TextOf(Exact(body.fields, "method"))
  }

  function ExactName(body: Tree): Option<string>
    requires body.TObj?
  {
    match FieldsOf(Exact(body.fields, "params")) case None => None case Some(fields) => TextOf(Exact(fields, "name"))
  }

  function ExactArguments(body: Tree): Option<Tree>
    requires body.TObj?
  {
    match FieldsOf(Exact(body.fields, "params")) case None => None case Some(fields) => Exact(fields, "arguments")
  }

  // ---------------------------------------------------------------- what is accepted, in exact names

  /** The text of a member; a missing member and null are empty. */
  predicate Reads(member: Option<Tree>, text: string) {
    if member in {None, Some(TNull)} then text == "" else member == Some(TStr(text))
  }

  /** The members of a member; a missing one and null have none. */
  predicate Holds(member: Option<Tree>, fields: seq<Field>) {
    if member in {None, Some(TNull)} then fields == [] else member == Some(TObj(fields))
  }

  /** A header that appears at most once, without the white space around it. */
  ghost predicate Header(values: seq<string>, value: string) {
    || (values == [] && value == "")
    || (|values| == 1 && exists left, right :: Canonical.Trims(values[0], value, left, right))
  }

  ghost predicate HasText(s: string) { exists i | 0 <= i < |s| :: s[i] !in Canonical.WHITE_SPACE }

  lemma MembersExact(member: Option<Tree>, text: string, fields: seq<Field>)
    ensures TextOf(member) == Some(text) <==> Reads(member, text)
    ensures FieldsOf(member) == Some(fields) <==> Holds(member, fields)
  {
  }

  lemma HeaderExact(values: seq<string>, value: string)
    ensures Single(values) == Some(value) <==> Header(values, value)
  {
    hide Canonical.Trims, Canonical.TrimSpace;
    if |values| == 1 {
      Canonical.TrimSpaceExact(values[0], value);
    }
  }

  lemma NotBlankExact(s: string)
    ensures NotBlank(s) <==> HasText(s)
  {
    hide Canonical.TrimSpace, Canonical.WHITE_SPACE;
    var t := Canonical.TrimSpace(s);
    Canonical.TrimSpaceExact(s, t);
    var left, right :| Canonical.Trims(s, t, left, right);
    if t == "" {
      assert s == left + right;
    } else {
      assert s[|left|] == t[0];
    }
  }

  /** The member an exact-case reader finds is the last one of that name. */
  lemma {:induction false} ExactFinds(fields: seq<Field>, name: string, tree: Tree)
    ensures Exact(fields, name) == Some(tree) <==>
            exists i | 0 <= i < |fields| ::
              fields[i] == Field(name, tree) && forall j | i < j < |fields| :: fields[j].key != name
    ensures Exact(fields, name).None? <==> forall i | 0 <= i < |fields| :: fields[i].key != name
  {
    if fields != [] {
      var n := |fields| - 1;
      ExactFinds(fields[..n], name, tree);
      if fields[n].key != name {
        assert forall i | 0 <= i < n :: fields[..n][i] == fields[i];
      }
    }
  }

  /** What an envelope must spell, in exact names. */
  ghost predicate EnvelopeSays(body: Tree, rpc: Rpc) {
    && body.TObj?
    && (forall i | 0 <= i < |body.fields| :: body.fields[i].key in {"jsonrpc", "id", "method", "params"})
    && Exact(body.fields, "jsonrpc") == Some(TStr("2.0"))
    && Exact(body.fields, "method") == Some(TStr(rpc.call)) && HasText(rpc.call)
    && Exact(body.fields, "id") == rpc.id && Exact(body.fields, "params") == rpc.params
  }

  /** An envelope is accepted exactly when its exact names spell one, whatever names fold together. */
  lemma EnvelopeExactly(fold: Fold, body: Tree, rpc: Rpc)
    ensures ParseEnvelope(fold, body) == Some(rpc) <==> EnvelopeSays(body, rpc)
  {
    hide Exact, Decoded, NotBlank, Canonical.WHITE_SPACE;
    NotBlankExact(rpc.call);
    NotBlankExact("");
    assert |"2.0"| == 3;
    if body.TObj? && OnlyNames(body.fields, ENVELOPE_NAMES) {
      FoldingAgrees(fold, ENVELOPE_NAMES, body.fields, "jsonrpc");
      FoldingAgrees(fold, ENVELOPE_NAMES, body.fields, "id");
      FoldingAgrees(fold, ENVELOPE_NAMES, body.fields, "method");
      FoldingAgrees(fold, ENVELOPE_NAMES, body.fields, "params");
    }
  }

  /** What the parameters of a call must spell, in exact names. */
  ghost predicate CallSays(params: Option<Tree>, call: ToolCall) {
    && params.Some? && params.value.TObj?
    && var fields := params.value.fields;
       && (forall i | 0 <= i < |fields| :: fields[i].key in {"name", "arguments", "_meta"})
       && Exact(fields, "name") == Some(TStr(call.name)) && HasText(call.name)
       && Exact(fields, "arguments") == call.arguments && (call.arguments.Some? ==> call.arguments.value.TObj?)
       && Holds(Exact(fields, "_meta"), call.meta)
  }

  lemma CallExactly(fold: Fold, params: Option<Tree>, call: ToolCall)
    ensures ParseToolCall(fold, params) == Some(call) <==> CallSays(params, call)
  {
    hide Exact, Decoded, NotBlank, Canonical.WHITE_SPACE;
    NotBlankExact(call.name);
    NotBlankExact("");
    ExactFinds([], "name", TNull);
    if params.Some? && FieldsOf(params).Some? && OnlyNames(FieldsOf(params).value, PARAM_NAMES) {
      var fields := FieldsOf(params).value;
      FoldingAgrees(fold, PARAM_NAMES, fields, "name");
      FoldingAgrees(fold, PARAM_NAMES, fields, "arguments");
      FoldingAgrees(fold, PARAM_NAMES, fields, "_meta");
      MembersExact(Exact(fields, "_meta"), "", call.meta);
    }
  }

  /** The parameters' metadata names the protocol version of 28 July 2026. */
  ghost predicate StatesVersion(fields: seq<Field>) {
    && Exact(fields, "_meta").Some? && Exact(fields, "_meta").value.TObj?
    && Exact(Exact(fields, "_meta").value.fields, "io.modelcontextprotocol/protocolVersion") == Some(TStr("2026-07-28"))
  }

  /** What the routing headers must say of the envelope: a modern request repeats its method, the tool it calls and
      its version; an older one may leave the method and the name out, and no later version is known. */
  ghost predicate RoutingSays(h: Headers, rpc: Rpc, fields: seq<Field>, call: string, name: string, routing: Routing) {
    && Header(h.version, routing.version) && Header(h.call, call) && Header(h.name, name) && !h.hasParams
    && Holds(rpc.params, fields) && Reads(Exact(fields, "name"), routing.name)
    && (call in {"", rpc.call}) && (name in {"", routing.name})
    && (routing.modern <==> routing.version == "2026-07-28")
    && (if routing.modern then call != "" && (rpc.call == "tools/call" ==> name != "") && StatesVersion(fields)
        else !Utf8.Before("2026-07-28", routing.version))
  }

  ghost predicate Routes(h: Headers, rpc: Rpc, routing: Routing) {
    exists fields, call, name :: RoutingSays(h, rpc, fields, call, name, routing)
  }

  lemma VersionExactly(fields: seq<Field>)
    ensures MetaVersion(fields) == Some("2026-07-28") <==> StatesVersion(fields)
  {
    assert |"2026-07-28"| == 10;
  }

  /** Routing is accepted exactly when the headers agree with the body. */
  lemma RoutingExactly(h: Headers, rpc: Rpc, routing: Routing)
    ensures ValidateRouting(h, rpc) == Some(routing) <==> Routes(h, rpc, routing)
  {
    hide Exact, Header, Holds, Reads, StatesVersion, MetaVersion, TextOf, FieldsOf, Single;
    if ValidateRouting(h, rpc) == Some(routing) {
      var fields, call, name := FieldsOf(rpc.params).value, Single(h.call).value, Single(h.name).value;
      HeaderExact(h.version, routing.version);
      HeaderExact(h.call, call);
      HeaderExact(h.name, name);
      MembersExact(rpc.params, "", fields);
      MembersExact(Exact(fields, "name"), routing.name, []);
      VersionExactly(fields);
      assert RoutingSays(h, rpc, fields, call, name, routing);
    }
    forall fields, call, name | RoutingSays(h, rpc, fields, call, name, routing)
      ensures ValidateRouting(h, rpc) == Some(routing)
    {
      HeaderExact(h.version, routing.version);
      HeaderExact(h.call, call);
      HeaderExact(h.name, name);
      MembersExact(rpc.params, "", fields);
      MembersExact(Exact(fields, "name"), routing.name, []);
      VersionExactly(fields);
    }
  }

  /** A request may go without a permit: the names a modern and an older client may use. */
  predicate NeedsNoPermit(call: string, version: string) {
    if version == "2026-07-28" then call in {"server/discover", "tools/list"}
    else call in {"initialize", "notifications/initialized", "ping", "tools/list"}
  }

  /** A request is forwarded without a permit exactly when it is well formed and well routed and its method is one of
      the setup methods of its version. */
  lemma SetupExactly(fold: Fold, r: Registry, h: Headers, scope: Scope, body: Tree, rpc: Rpc)
    ensures Decide(fold, r, h, scope, body) == ForwardSetup(rpc) <==>
            && EnvelopeSays(body, rpc)
            && exists routing :: Routes(h, rpc, routing) && NeedsNoPermit(rpc.call, routing.version)
  {
    hide ParseEnvelope, ValidateRouting, ParseToolCall, Prepare, MetaIsBound, Routes, EnvelopeSays;
    EnvelopeExactly(fold, body, rpc);
    if ParseEnvelope(fold, body) == Some(rpc) && ValidateRouting(h, rpc).Some? {
      RoutingExactly(h, rpc, ValidateRouting(h, rpc).value);
      RoutedModern(h, rpc);
    }
    forall routing | Routes(h, rpc, routing) ensures ValidateRouting(h, rpc) == Some(routing) {
      RoutingExactly(h, rpc, routing);
    }
  }

  lemma RoutedModern(h: Headers, rpc: Rpc)
    requires ValidateRouting(h, rpc).Some?
    ensures ValidateRouting(h, rpc).value.modern <==> ValidateRouting(h, rpc).value.version == "2026-07-28"
  {
    hide Single, MetaVersion, TextOf, FieldsOf;
  }

  /** Metadata of a call repeats the version of the request and nothing else. */
  predicate OnlyVersion(meta: seq<Field>, version: string) {
    forall i | 0 <= i < |meta| ::
      meta[i] == Field("io.modelcontextprotocol/protocolVersion", TStr(version)) && version != ""
  }

  /** The proposal a call makes: the caller's headers, and the tool and the arguments of the body. */
  predicate Proposes(scope: Scope, call: ToolCall, input: Input) {
    && input.principalID == scope.principalID && input.agentID == scope.agentID && input.workloadID == scope.workloadID
    && input.delegation == scope.delegation && input.tool == call.name && input.capability == scope.capability
    && input.resource == scope.resource && input.operation == scope.operation && input.profileID == scope.profileID
    && input.audience == scope.audience
    && input.arguments == Utf8.Encode(match call.arguments case None => "{}" case Some(t) => Render(t))
  }

  /** A call goes on to the gate exactly when it is a well-formed and well-routed tools/call and the registry
      prepares its proposal. */
  lemma GateExactly(fold: Fold, r: Registry, h: Headers, scope: Scope, body: Tree, rpc: Rpc, call: ToolCall,
                    input: Input, prepared: PreparedExecution)
    ensures Decide(fold, r, h, scope, body) == Gate(rpc, call, input, prepared) <==>
            && EnvelopeSays(body, rpc) && rpc.call == "tools/call" && CallSays(rpc.params, call)
            && (exists routing :: Routes(h, rpc, routing) && OnlyVersion(call.meta, routing.version))
            && Proposes(scope, call, input) && Prepare(r, input) == Ok(prepared)
  {
    hide ParseEnvelope, ValidateRouting, ParseToolCall, Prepare, Routes, EnvelopeSays, CallSays, Utf8.Encode, Render;
    EnvelopeExactly(fold, body, rpc);
    CallExactly(fold, rpc.params, call);
    if ParseEnvelope(fold, body) == Some(rpc) && ValidateRouting(h, rpc).Some? {
      RoutingExactly(h, rpc, ValidateRouting(h, rpc).value);
    }
    forall routing | Routes(h, rpc, routing) ensures ValidateRouting(h, rpc) == Some(routing) {
      RoutingExactly(h, rpc, routing);
    }
    assert forall version :: MetaIsBound(call.meta, version) <==> OnlyVersion(call.meta, version);
  }

  function ExactMeta(body: Tree): Option<seq<Field>>
    requires body.TObj?
  {
    match FieldsOf(Exact(body.fields, "params"))
    case None => None
    case Some(fields) => FieldsOf(Exact(fields, "_meta"))
  }

  function ExactVersion(body: Tree): Option<Tree>
    requires body.TObj?
  {
    match ExactMeta(body) case None => None case Some(meta) => Exact(meta, VERSION_KEY)
  }

  /** On every accepted tools/call, whatever names fold together, the tool an exact-case reader finds in
      the body, the tool of the prepared action and, for a modern request, the Mcp-Name header are one value,
      and the arguments judged are the body's. */
  lemma OneToolName(hash: Hash, fold: Fold, r: Registry, h: Headers, scope: Scope, body: Tree)
    requires Built(hash, r) && Decide(fold, r, h, scope, body).Gate?
    ensures var d := Decide(fold, r, h, scope, body);
            && body.TObj? && ExactMethod(body) == Some("tools/call")
            && ExactName(body) == Some(d.input.tool) && d.prepared.action.tool == d.input.tool
            && d.input.arguments == ArgumentBytes(ExactArguments(body))
            && (Single(h.version) == Some(PROTOCOL_VERSION) ==> Single(h.name) == Some(d.input.tool))
            && (Single(h.name).Some? && Single(h.name).value != "" ==> Single(h.name) == Some(d.input.tool))
  {
    hide ParseEnvelope, ParseToolCall, Prepare, Built, Exact, NotBlank, MetaIsBound;
    EnvelopeIsExact(fold, body);
    var rpc := ParseEnvelope(fold, body).value;
    ToolCallIsExact(fold, rpc.params);
    PreparedIsBound(hash, r, Decide(fold, r, h, scope, body).input);
  }

  /** Whatever is forwarded without a permit has, for an exact-case reader too, a method on the allowed
      list; in particular it is no tools/call. */
  lemma SetupIsOnTheList(fold: Fold, r: Registry, h: Headers, scope: Scope, body: Tree)
    requires Decide(fold, r, h, scope, body).ForwardSetup?
    ensures body.TObj? && ExactMethod(body).Some?
    ensures ExactMethod(body) == Some(Decide(fold, r, h, scope, body).rpc.call)
    ensures ExactMethod(body).value in
              if Single(h.version) == Some("2026-07-28") then {"server/discover", "tools/list"}
              else {"initialize", "notifications/initialized", "ping", "tools/list"}
  {
    hide ParseEnvelope, ParseToolCall, Prepare, Exact, NotBlank, MetaIsBound;
    EnvelopeIsExact(fold, body);
  }
}
