/**
  The enforcement boundary in place (internal/adapters/mcp/proxy.go): one request is decided, prepared,
  verified and only then sent.
 */
module Proxy {
  import opened Wrappers
  import opened CanonicalAction
  import opened Json
  import opened Permits
  import opened ExecutionProof
  import opened Verifier
  import opened Prepared
  import opened McpEnvelope
  import opened Canonical
  import Syntax
  import Utf8

  // ---------------------------------------------------------------- where a request goes

  /** A parsed URL and how it is written again. */
  datatype Url = Url(scheme: string, host: string, text: string)

  /** url.Parse, which is arbitrary here. */
  type UrlParser = string -> Option<Url>

  predicate Owns(r: Prepared.Registry, url: string) { exists tool | tool in r :: r[tool].upstreamURL == url }

  /** An absolute HTTP(S) URL that belongs to a profile, as it is written after parsing. */
  function RouteTo(parse: UrlParser, r: Prepared.Registry, text: string): (url: Option<string>)
    ensures url.Some? ==> Owns(r, url.value)
  {
    match parse(text)
    case None => None
    case Some(u) =>
      if u.scheme == "" || u.host == "" || (u.scheme != "http" && u.scheme != "https") || !Owns(r, u.text) then None
      else Some(u.text)
  }

  /** Parsing leaves the profiles' URLs, which were parsed and written when the profiles were made, as they are. */
  predicate KeepsProfileURLs(parse: UrlParser, r: Prepared.Registry) {
    forall tool | tool in r :: parse(r[tool].upstreamURL).Some?
      ==> parse(r[tool].upstreamURL).value.text == r[tool].upstreamURL
  }

  // ---------------------------------------------------------------- what is sent

  /** What left for an upstream: a tool call, or a request of the protocol's setup. */
  datatype Sent = SentCall(tool: string, url: string, body: Tree) | SentSetup(url: string, body: Tree)

  datatype Credentials = Credentials(token: PermitToken, proof: ProofToken, httpMethod: string, httpPath: string)

  /** A member that is left out when it is missing. */
  function Optional(key: string, member: Option<Tree>): seq<Field> {
    match member case None => [] case Some(tree) => [Field(key, tree)]
  }

  /** The envelope that was classified, marshalled anew. */
  function EnvelopeBody(rpc: Rpc): (body: Tree)
    ensures body.TObj?
  {
    TObj([Field("jsonrpc", TStr("2.0"))] + Optional("id", rpc.id) + [Field("method", TStr(rpc.call))]
         + Optional("params", rpc.params))
  }

  function LastField(fields: seq<Field>): seq<Field> { if fields == [] then [] else [fields[|fields| - 1]] }

  /** The parameters of a forwarded call; bound metadata has one key. */
  function CallParams(call: ToolCall, arguments: Tree): seq<Field> {
    var meta := if call.meta == [] then None else Some(TObj(LastField(call.meta)));
    [Field("name", TStr(call.name)), Field("arguments", arguments)] + Optional("_meta", meta)
  }

  /** normalizedToolCallBody: the parameters hold the name, the prepared arguments and the bound metadata. */
  function CallBody(rpc: Rpc, call: ToolCall, arguments: Tree): (body: Tree)
    ensures body.TObj?
  {
    EnvelopeBody(rpc.(params := Some(TObj(CallParams(call, arguments)))))
  }

  /** What prepared argument bytes spell. */
  function ArgumentsTree(arguments: Bytes): Option<Tree> {
    match Utf8.Decode(arguments)
    case None => None
    case Some(s) =>
      match Syntax.ValueTree(TrimSpace(s), 0) case None => None case Some(p) => Some(p.tree)
  }

  /** The outcome a request leads to, and what it sends. */
  ghost function Served(hash: Hash, cfg: Config, keys: map<string, PublicKey>, fold: Fold, parse: UrlParser,
                        r: Prepared.Registry, control: string, shared: Shared, h: Headers, scope: Scope, body: Tree,
                        cred: Credentials, now: Time, later: Time): (Shared, seq<Sent>)
  {
    if cred.httpMethod != "POST" then (shared, [])
    else match Decide(fold, r, h, scope, body)
      case RejectRequest => (shared, [])
      case ForwardSetup(rpc) => (shared, [SentSetup(control, EnvelopeBody(rpc))])
      case Gate(rpc, call, _, p) =>
        var url, arguments := RouteTo(parse, r, p.upstreamURL), ArgumentsTree(p.arguments);
        if url.None? || arguments.None? then (shared, [])
        else
          var (after, result) := VerifyAndConsume(hash, cfg, keys, shared, cred.token, cred.proof, p.action,
                                                  cred.httpMethod, cred.httpPath, now, later);
          (after,
           if result.verified && result.outcome == Verified
           then [SentCall(call.name, url.value, CallBody(rpc, call, arguments.value))] else [])
  }

  // ---------------------------------------------------------------- what an upstream reads

  lemma ExactAppend(fields: seq<Field>, last: Field, name: string)
    ensures Exact(fields + [last], name) == if last.key == name then Some(last.tree) else Exact(fields, name)
  {
    assert (fields + [last])[..|fields|] == fields;
  }

  lemma ExactOptional(fields: seq<Field>, key: string, member: Option<Tree>, name: string)
    ensures Exact(fields + Optional(key, member), name) ==
            if key == name && member.Some? then member else Exact(fields, name)
  {
    if member.Some? {
      ExactAppend(fields, Field(key, member.value), name);
    } else {
      assert fields + [] == fields;
    }
  }

  /** The exact members of an envelope body are those of the envelope. */
  lemma EnvelopeReadsBack(rpc: Rpc)
    ensures var fields := EnvelopeBody(rpc).fields;
            && OnlyNames(fields, ENVELOPE_NAMES) && Exact(fields, "jsonrpc") == Some(TStr("2.0"))
            && Exact(fields, "method") == Some(TStr(rpc.call))
            && Exact(fields, "id") == rpc.id && Exact(fields, "params") == rpc.params
  {
    hide Exact, Optional;
    var one := [Field("jsonrpc", TStr("2.0"))];
    var two := one + Optional("id", rpc.id);
    var three := two + [Field("method", TStr(rpc.call))];
    assert "params" != "method" by { assert "params"[0] != "method"[0]; }
    EnvelopeNames(rpc);
    forall name | name in ENVELOPE_NAMES
      ensures Exact(EnvelopeBody(rpc).fields, name) ==
              if name == "params" then rpc.params else if name == "method" then Some(TStr(rpc.call))
              else if name == "id" then rpc.id else Some(TStr("2.0"))
    {
      ExactOptional(three, "params", rpc.params, name);
      ExactAppend(two, Field("method", TStr(rpc.call)), name);
      ExactOptional(one, "id", rpc.id, name);
      ExactAppend([], Field("jsonrpc", TStr("2.0")), name);
      NothingExact(name);
      assert [] + one == one;
    }
  }

  lemma NothingExact(name: string)
    ensures Exact([], name).None?
  {
  }

  lemma EnvelopeNames(rpc: Rpc)
    ensures OnlyNames(EnvelopeBody(rpc).fields, ENVELOPE_NAMES)
  {
  }

  /** Whatever reads the forwarded call, with exact names or with names folded, finds the method, the tool and the
      arguments that were prepared, and the id of the request. */
  lemma CallReadsBack(fold: Fold, rpc: Rpc, call: ToolCall, arguments: Tree)
    requires rpc.call == "tools/call"
    ensures var body := CallBody(rpc, call, arguments);
            && ExactMethod(body) == Some("tools/call") && ExactName(body) == Some(call.name)
            && ExactArguments(body) == Some(arguments) && Exact(body.fields, "id") == rpc.id
            && Decoded(fold, ENVELOPE_NAMES, body.fields, "method") == Some(TStr("tools/call"))
            && FieldsOf(Decoded(fold, ENVELOPE_NAMES, body.fields, "params")).Some?
            && var params := FieldsOf(Decoded(fold, ENVELOPE_NAMES, body.fields, "params")).value;
               && Decoded(fold, PARAM_NAMES, params, "name") == Some(TStr(call.name))
               && Decoded(fold, PARAM_NAMES, params, "arguments") == Some(arguments)
    ensures ExactMeta(CallBody(rpc, call, arguments)) == Some(LastField(call.meta))
  {
    hide Exact, Decoded, EnvelopeBody;
    var params := CallParams(call, arguments);
    var sent := rpc.(params := Some(TObj(params)));
    EnvelopeReadsBack(sent);
    ParamsReadBack(fold, call, arguments);
    FoldingAgrees(fold, ENVELOPE_NAMES, EnvelopeBody(sent).fields, "method");
    FoldingAgrees(fold, ENVELOPE_NAMES, EnvelopeBody(sent).fields, "params");
  }

  lemma ParamsReadBack(fold: Fold, call: ToolCall, arguments: Tree)
    ensures var params := CallParams(call, arguments);
            && Exact(params, "name") == Some(TStr(call.name)) && Exact(params, "arguments") == Some(arguments)
            && Decoded(fold, PARAM_NAMES, params, "name") == Some(TStr(call.name))
            && Decoded(fold, PARAM_NAMES, params, "arguments") == Some(arguments)
            && FieldsOf(Exact(params, "_meta")) == Some(LastField(call.meta))
  {
    hide Exact, Decoded;
    var one, two := [Field("name", TStr(call.name))], [Field("name", TStr(call.name)), Field("arguments", arguments)];
    var meta := if call.meta == [] then None else Some(TObj(LastField(call.meta)));
    assert two == one + [Field("arguments", arguments)] && one == [] + [Field("name", TStr(call.name))];
    ExactOptional(two, "_meta", meta, "name");
    ExactOptional(two, "_meta", meta, "_meta");
    ExactAppend(one, Field("arguments", arguments), "_meta");
    ExactAppend([], Field("name", TStr(call.name)), "_meta");
    NothingExact("_meta");
    ExactOptional(two, "_meta", meta, "arguments");
    ExactAppend(one, Field("arguments", arguments), "name");
    ExactAppend(one, Field("arguments", arguments), "arguments");
    ExactAppend([], Field("name", TStr(call.name)), "name");
    FoldingAgrees(fold, PARAM_NAMES, CallParams(call, arguments), "name");
    FoldingAgrees(fold, PARAM_NAMES, CallParams(call, arguments), "arguments");
  }

  /** The tree that prepared arguments spell is a spelling of the value that the digest was computed from. */
  lemma ArgumentsSpell(arguments: Bytes)
    requires CanonicalizeJSON(arguments).Ok?
    ensures ArgumentsTree(arguments).Some? && ValidTree(ArgumentsTree(arguments).value, MAX_JSON_DEPTH)
    ensures ParseArguments(arguments) == Ok(Denote(ArgumentsTree(arguments).value, MAX_JSON_DEPTH))
  {
    hide Syntax.ValueTree, ParseText, ValidTree, Denote, Print, Utf8.Decode, Utf8.Encode;
    EmptyTextIsRefused();
    ParseIsExact(TrimSpace(Utf8.Decode(arguments).value));
  }

  /** The version an exact-case reader finds in the metadata is left as it is. */
  lemma VersionSurvives(meta: seq<Field>, version: string)
    requires MetaIsBound(meta, version)
    ensures Exact(LastField(meta), VERSION_KEY) == Exact(meta, VERSION_KEY)
  {
    if meta != [] {
      ExactAppend([], meta[|meta| - 1], VERSION_KEY);
    }
  }

  // ---------------------------------------------------------------- what a sent call means

  /** What is sent says, to an exact-case reader, what the request said and what was prepared. */
  ghost predicate CarriesCall(r: Prepared.Registry, parse: UrlParser, body: Tree, p: PreparedExecution, sent: Sent) {
    && sent.SentCall? && sent.body.TObj? && body.TObj?
    && ExactMethod(body) == ExactMethod(sent.body) == Some("tools/call")
    && ExactName(body) == ExactName(sent.body) == Some(sent.tool)
    && Exact(sent.body.fields, "id") == Exact(body.fields, "id")
    && ExactVersion(sent.body) == ExactVersion(body)
    && ExactArguments(sent.body).Some? && ValidTree(ExactArguments(sent.body).value, MAX_JSON_DEPTH)
    && ParseArguments(p.action.arguments) == Ok(Denote(ExactArguments(sent.body).value, MAX_JSON_DEPTH))
    && Owns(r, sent.url) && (KeepsProfileURLs(parse, r) ==> sent.url == p.upstreamURL)
  }

  lemma SentCarriesCall(hash: Hash, fold: Fold, parse: UrlParser, r: Prepared.Registry, h: Headers, scope: Scope,
                        body: Tree)
    requires Built(hash, r) && Decide(fold, r, h, scope, body).Gate?
    ensures var d := Decide(fold, r, h, scope, body);
            var url, arguments := RouteTo(parse, r, d.prepared.upstreamURL), ArgumentsTree(d.prepared.arguments);
            && d.prepared.action.tool == d.call.name
            && (url.Some? && arguments.Some? ==>
                  CarriesCall(r, parse, body, d.prepared,
                              SentCall(d.call.name, url.value, CallBody(d.rpc, d.call, arguments.value))))
  {
    hide Decide, Built, ExactMethod, ExactName, ExactArguments, Exact, CallBody, ArgumentsTree, Owns, ParseArguments,
      Denote, ValidTree, Prepare, CanonicalizeJSON;
    var d := Decide(fold, r, h, scope, body);
    OneToolName(hash, fold, r, h, scope, body);
    GatedCall(hash, fold, r, h, scope, body);
    GatedMeta(fold, r, h, scope, body);
    ArgumentsSpell(d.prepared.arguments);
    CallReadsBack(fold, d.rpc, d.call, ArgumentsTree(d.prepared.arguments).value);
  }

  /** A tool call leaves only when the permit it presents was outstanding and carries the very action.  The method,
      the tool and the id an exact-case reader finds in what is sent are those it finds in the request, the tool and
      the value of the arguments are the signed ones, and the URL is a profile's own. */
  lemma SentCallIsPermitted(hash: Hash, cfg: Config, keys: map<string, PublicKey>, fold: Fold, parse: UrlParser,
                            r: Prepared.Registry, control: string, shared: Shared, h: Headers, scope: Scope,
                            body: Tree, cred: Credentials, now: Time, later: Time)
    requires Built(hash, r)
    requires var sent := Served(hash, cfg, keys, fold, parse, r, control, shared, h, scope, body, cred, now, later).1;
             sent != [] && sent[0].SentCall?
    ensures var sent := Served(hash, cfg, keys, fold, parse, r, control, shared, h, scope, body, cred, now, later).1;
            && |sent| == 1 && TokenAuthentic(cfg, cred.token, Execution) && cred.token.claims.tool == sent[0].tool
            && cred.token.claims.permitID in shared.store.records
            && shared.store.records[cred.token.claims.permitID].state == Issued
            && Decide(fold, r, h, scope, body).Gate?
            && var p := Decide(fold, r, h, scope, body).prepared;
               Digest(hash, p.action) == Ok(cred.token.claims.actionDigest) && CarriesCall(r, parse, body, p, sent[0])
  {
    hide Decide, VerifyAndConsume, TokenAuthentic, ProofHolds, Valid, Digest, AuthorityHolds, Built, CallBody,
      ArgumentsTree, CarriesCall, RouteTo;
    SentCarriesCall(hash, fold, parse, r, h, scope, body);
    var d := Decide(fold, r, h, scope, body);
    CallVerifiedExactlyWhen(hash, cfg, keys, shared, cred.token, cred.proof, d.prepared.action, cred.httpMethod,
                            cred.httpPath, now, later);
  }

  lemma GatedCall(hash: Hash, fold: Fold, r: Prepared.Registry, h: Headers, scope: Scope, body: Tree)
    requires Built(hash, r) && Decide(fold, r, h, scope, body).Gate?
    ensures var d := Decide(fold, r, h, scope, body);
            && d.input.tool == d.call.name && d.input.tool in r && d.rpc.call == "tools/call"
            && body.TObj? && d.rpc.id == Exact(body.fields, "id")
            && Prepare(r, d.input) == Ok(d.prepared) && CanonicalizeJSON(d.prepared.arguments).Ok?
            && d.prepared.upstreamURL == r[d.input.tool].upstreamURL
               && d.prepared.action.arguments == d.prepared.arguments
  {
    hide ParseEnvelope, ValidateRouting, ParseToolCall, MetaIsBound, Prepare, Built, CanonicalizeJSON;
    EnvelopeIsExact(fold, body);
    var d := Decide(fold, r, h, scope, body);
    PreparedIsBound(hash, r, d.input);
    PreparedCanonicalizes(r, d.input);
  }

  lemma GatedMeta(fold: Fold, r: Prepared.Registry, h: Headers, scope: Scope, body: Tree)
    requires Decide(fold, r, h, scope, body).Gate?
    ensures var meta := Decide(fold, r, h, scope, body).call.meta;
            && body.TObj? && ExactMeta(body) == Some(meta)
            && Exact(LastField(meta), VERSION_KEY) == Exact(meta, VERSION_KEY)
  {
    hide ParseEnvelope, ValidateRouting, ParseToolCall, MetaIsBound, Prepare, Exact, NotBlank;
    EnvelopeIsExact(fold, body);
    var rpc := ParseEnvelope(fold, body).value;
    ToolCallIsExact(fold, rpc.params);
    VersionSurvives(ParseToolCall(fold, rpc.params).value.meta, ValidateRouting(h, rpc).value.version);
  }

  lemma PreparedCanonicalizes(r: Prepared.Registry, input: Input)
    requires Prepare(r, input).Ok?
    ensures CanonicalizeJSON(Prepare(r, input).value.arguments).Ok?
  {
    hide Valid, CanonicalizeJSON;
  }

  /** What is forwarded without a permit goes to the control upstream, and the method an exact-case reader finds in it
      is one of the setup methods of its version. */
  lemma SentSetupIsOnTheList(hash: Hash, cfg: Config, keys: map<string, PublicKey>, fold: Fold, parse: UrlParser,
                             r: Prepared.Registry, control: string, shared: Shared, h: Headers, scope: Scope,
                             body: Tree, cred: Credentials, now: Time, later: Time)
    requires var sent := Served(hash, cfg, keys, fold, parse, r, control, shared, h, scope, body, cred, now, later).1;
             sent != [] && sent[0].SentSetup?
    ensures var (after, sent) := Served(hash, cfg, keys, fold, parse, r, control, shared, h, scope, body, cred, now,
                                        later);
            && after == shared && |sent| == 1 && sent[0].url == control && sent[0].body.TObj?
            && ExactMethod(sent[0].body).Some? && body.TObj? && ExactMethod(sent[0].body) == ExactMethod(body)
            && ExactMethod(sent[0].body).value in
                 if Single(h.version) == Some("2026-07-28") then {"server/discover", "tools/list"}
                 else {"initialize", "notifications/initialized", "ping", "tools/list"}
  {
    hide Decide, VerifyAndConsume, SafeMethod, EnvelopeBody, Exact, ArgumentsTree, RouteTo;
    SetupIsOnTheList(fold, r, h, scope, body);
    EnvelopeReadsBack(Decide(fold, r, h, scope, body).rpc);
  }

  /** A request goes to the control upstream without a permit exactly when it is POSTed, well formed and well routed,
      and its method is one of the setup methods of its version; then its own envelope is all that is sent. */
  lemma SetupIsSentExactly(hash: Hash, cfg: Config, keys: map<string, PublicKey>, fold: Fold, parse: UrlParser,
                           r: Prepared.Registry, control: string, shared: Shared, h: Headers, scope: Scope,
                           body: Tree, cred: Credentials, now: Time, later: Time, rpc: Rpc)
    ensures Served(hash, cfg, keys, fold, parse, r, control, shared, h, scope, body, cred, now, later) ==
            (shared, [SentSetup(control, EnvelopeBody(rpc))]) <==>
            && cred.httpMethod == "POST" && EnvelopeSays(body, rpc)
            && exists routing :: Routes(h, rpc, routing) && NeedsNoPermit(rpc.call, routing.version)
  {
    hide Decide, VerifyAndConsume, EnvelopeBody, Exact, ArgumentsTree, RouteTo, EnvelopeSays, Routes, NeedsNoPermit;
    SetupExactly(fold, r, h, scope, body, rpc);
    var d := Decide(fold, r, h, scope, body);
    EnvelopeReadsBack(rpc);
    if d.ForwardSetup? {
      EnvelopeReadsBack(d.rpc);
      if EnvelopeBody(d.rpc) == EnvelopeBody(rpc) {
        assert d.rpc == rpc;
      }
    }
  }

  /** The parsed URL is an absolute one of a profile, and is written like this. */
  ghost predicate LeadsTo(parse: UrlParser, r: Prepared.Registry, text: string, url: string) {
    && parse(text).Some? && parse(text).value.scheme in {"http", "https"} && parse(text).value.host != ""
    && parse(text).value.text == url && exists tool | tool in r :: r[tool].upstreamURL == url
  }

  lemma RouteExactly(parse: UrlParser, r: Prepared.Registry, text: string, url: string)
    ensures RouteTo(parse, r, text) == Some(url) <==> LeadsTo(parse, r, text, url)
  {
    assert |"http"| == 4;
  }

  /** A tool call is sent exactly when it is POSTed, goes on to the gate, its route leads to a profile's URL, and it
      meets everything an execution must meet; then it is all that is sent. */
  lemma CallIsSentExactly(hash: Hash, cfg: Config, keys: map<string, PublicKey>, fold: Fold, parse: UrlParser,
                          r: Prepared.Registry, control: string, shared: Shared, h: Headers, scope: Scope,
                          body: Tree, cred: Credentials, now: Time, later: Time, sent: Sent)
    requires sent.SentCall?
    ensures Served(hash, cfg, keys, fold, parse, r, control, shared, h, scope, body, cred, now, later).1 == [sent] <==>
            && cred.httpMethod == "POST" && Decide(fold, r, h, scope, body).Gate?
            && var d := Decide(fold, r, h, scope, body);
               && LeadsTo(parse, r, d.prepared.upstreamURL, sent.url) && sent.tool == d.call.name
               && MayExecute(hash, cfg, keys, shared, cred.token, cred.proof, d.prepared.action, "POST", cred.httpPath,
                             now, later)
               && ArgumentsTree(d.prepared.arguments).Some?
               && sent.body == CallBody(d.rpc, d.call, ArgumentsTree(d.prepared.arguments).value)
    ensures Decide(fold, r, h, scope, body).Gate? ==>
              ArgumentsTree(Decide(fold, r, h, scope, body).prepared.arguments).Some?
  {
    hide Decide, VerifyAndConsume, CallBody, ArgumentsTree, RouteTo, LeadsTo, MayExecute, Prepare, CanonicalizeJSON;
    var d := Decide(fold, r, h, scope, body);
    if d.Gate? {
      GateIsPrepared(fold, r, h, scope, body);
      PreparedCanonicalizes(r, d.input);
      ArgumentsSpell(d.prepared.arguments);
      RouteExactly(parse, r, d.prepared.upstreamURL, sent.url);
      CallVerifiedExactlyWhen(hash, cfg, keys, shared, cred.token, cred.proof, d.prepared.action, cred.httpMethod,
                              cred.httpPath, now, later);
      VerifiedOutcome(hash, cfg, keys, shared, cred.token, cred.proof, d.prepared.action, cred.httpMethod,
                      cred.httpPath, now, later);
    }
  }

  lemma GateIsPrepared(fold: Fold, r: Prepared.Registry, h: Headers, scope: Scope, body: Tree)
    requires Decide(fold, r, h, scope, body).Gate?
    ensures var d := Decide(fold, r, h, scope, body); Prepare(r, d.input) == Ok(d.prepared)
  {
    hide ParseEnvelope, ValidateRouting, ParseToolCall, MetaIsBound, Prepare;
  }

  /** A call that is verified says so in its outcome. */
  lemma VerifiedOutcome(hash: Hash, cfg: Config, keys: map<string, PublicKey>, sh: Shared, token: PermitToken,
                        proof: ProofToken, a: Action, httpMethod: string, httpPath: string, now: Time, later: Time)
    ensures var result := VerifyAndConsume(hash, cfg, keys, sh, token, proof, a, httpMethod, httpPath, now, later).1;
            result.verified ==> result.outcome == Verified
  {
    hide VerifyAndConsume;
    if VerifyAndConsume(hash, cfg, keys, sh, token, proof, a, httpMethod, httpPath, now, later).1.verified {
      CallConsumesAtLaterReading(hash, cfg, keys, sh, token, proof, a, httpMethod, httpPath, now, later);
    }
  }

  // ---------------------------------------------------------------- the proxy in place

  class McpProxy {
    const fold: Fold
    const parse: UrlParser
    const registry: Prepared.Registry
    const control: string
    const gate: Verifier
    var sent: seq<Sent>

    constructor (fold: Fold, parse: UrlParser, registry: Prepared.Registry, control: string, gate: Verifier)
      ensures this.fold == fold && this.parse == parse && this.registry == registry && this.control == control
      ensures this.gate == gate && sent == []
    {
      this.fold, this.parse, this.registry, this.control, this.gate := fold, parse, registry, control, gate;
      sent := [];
    }

    /** ServeHTTP after the body was read and found unambiguous: verification and consumption come
        before anything is sent, and nothing is sent without them. */
    method Serve(h: Headers, scope: Scope, body: Tree, cred: Credentials, now: Time, later: Time)
      modifies this, gate.store, gate.proofNonces
      ensures var served := old(Served(gate.hash, gate.cfg, gate.workloadKeys.keys, fold, parse, registry, control,
                                       gate.Value(), h, scope, body, cred, now, later));
              gate.Value() == served.0 && sent == old(sent) + served.1
    {
      hide ParseEnvelope, ValidateRouting, ParseToolCall, MetaIsBound, Prepare, VerifyAndConsume, SafeMethod, RouteTo,
        ArgumentsTree, CallBody, EnvelopeBody;
      if cred.httpMethod != "POST" {
        return;
      }
      var envelope := ParseEnvelope(fold, body);
      if envelope.None? {
        return;
      }
      var rpc := envelope.value;
      var routing := ValidateRouting(h, rpc);
      if routing.None? {
        return;
      }
      if rpc.call != "tools/call" {
        if SafeMethod(rpc.call, routing.value.modern) {
          sent := sent + [SentSetup(control, EnvelopeBody(rpc))];
        }
        return;
      }
      var call := ParseToolCall(fold, rpc.params);
      if call.None? || !MetaIsBound(call.value.meta, routing.value.version) {
        return;
      }
      var prepared := PrepareExecution(registry, InputOf(scope, call.value.name, ArgumentBytes(call.value.arguments)));
      if prepared.Err? {
        return;
      }
      var p := prepared.value;
      var url, arguments := RouteTo(parse, registry, p.upstreamURL), ArgumentsTree(p.arguments);
      if url.None? || arguments.None? {
        return;
      }
      var result := gate.VerifyExecutionAndConsume(cred.token, cred.proof, p.action, cred.httpMethod, cred.httpPath,
                                                   now, later);
      if !result.verified || result.outcome != Verified {
        return;
      }
      sent := sent + [SentCall(call.value.name, url.value, CallBody(rpc, call.value, arguments.value))];
    }
  }

  /** New: a proxy exists only for a control upstream that belongs to a profile. */
  method NewProxy(fold: Fold, parse: UrlParser, registry: Prepared.Registry, controlURL: string, gate: Verifier)
    returns (proxy: Option<McpProxy>)
    ensures proxy.Some? <==> registry != map[] && exists url :: LeadsTo(parse, registry, TrimSpace(controlURL), url)
    ensures proxy.Some? ==> fresh(proxy.value) && LeadsTo(parse, registry, TrimSpace(controlURL), proxy.value.control)
    ensures proxy.Some? ==> proxy.value.fold == fold && proxy.value.parse == parse
    ensures proxy.Some? ==> proxy.value.registry == registry && proxy.value.gate == gate && proxy.value.sent == []
  {
    hide RouteTo, LeadsTo, TrimSpace;
    var control := RouteTo(parse, registry, TrimSpace(controlURL));
    forall url ensures control == Some(url) <==> LeadsTo(parse, registry, TrimSpace(controlURL), url) {
      RouteExactly(parse, registry, TrimSpace(controlURL), url);
    }
    if registry == map[] || control.None? {
      return None;
    }
    var made := new McpProxy(fold, parse, registry, control.value, gate);
    return Some(made);
  }
}
