/**
  The permit protocol as a transition system: any number of issuing and verifying threads over one
  permit store, one nonce store and one registry of workload keys (internal/router/router.go,
  internal/verifier/verifier.go, internal/adapters/mcp/proxy.go).

  A step is what one thread does between taking and releasing a mutex; between its steps a thread
  keeps local state only.  Clock readings, tokens, proofs and proposals are arbitrary, and the
  issuing and the executing side hold registries of their own.
 */
module Protocol {
  import opened Wrappers
  import opened CanonicalAction
  import opened Permits
  import opened ExecutionProof
  import opened Verifier
  import opened Prepared
  import opened StoreRuns
  import opened Issuer

  /** The configured permit lifetime is in seconds, as policy states it. */
  datatype Env = Env(hash: Hash, cfg: Config, ttlSeconds: int, issuing: Prepared.Registry, executing: Prepared.Registry)

  // ---------------------------------------------------------------- threads

  datatype IssueRequest = IssueRequest(requestID: string, input: Input, workload: Workload, limits: Limits)
  {
    function Domain(): AuthorityKey { AuthorityKey(input.principalID, input.agentID, input.workloadID) }
  }

  /** One tools/call: the credentials it presents, the proposal it makes, and its first clock reading. */
  datatype Call = Call(token: PermitToken, proof: ProofToken, input: Input, httpMethod: string, httpPath: string,
                       now: Time)

  /** A call that passed everything: where in the runs of the two stores it spent its nonce and
      consumed its permit. */
  datatype Grant = Grant(call: Call, nonceIndex: nat, consumeIndex: nat)

  datatype Thread =
    | Captured(request: IssueRequest, authority: AuthorityState, at: nat, started: Time)
    | Inspected(call: Call)
    | Checked(call: Call)
    | Spent(call: Call, nonceIndex: nat)
    | Authorized(grant: Grant)
    | SimulationReady(claims: Claims, inspectedAt: Time)

  /** What was sent upstream, and under which grant. */
  datatype Dispatch = Dispatch(grant: Grant, tool: string, upstreamURL: string, arguments: Bytes)

  /** How a permit was issued, and where in the store's run. */
  datatype Issuance = Issuance(request: IssueRequest, captured: nat, registered: nat)

  /** What bounded the lifetime of a permit of either class, and when its authorization started. */
  datatype Origin = Origin(limits: Limits, started: Time)

  datatype World = World(
    store: Store,
    nonces: Nonces,
    keys: map<string, PublicKey>,
    threads: map<nat, Thread>,
    ops: seq<Op>,
    attempts: seq<Attempt>,
    issued: map<string, Issuance>,
    origins: map<string, Origin>,
    dispatched: seq<Dispatch>)

  const START := World(EMPTY_STORE, map[], map[], map[], [], [], map[], map[], [])

  // ---------------------------------------------------------------- steps

  datatype Step =
    | Capture(t: nat, request: IssueRequest, started: Time)
    | Issue(t: nat, terms: IssueTerms)
    | IssueSimulation(requestID: string, action: Action, origin: Origin, terms: IssueTerms)
    | InspectCall(t: nat, call: Call)
    | CheckCall(t: nat)
    | SpendNonce(t: nat)
    | ConsumePermit(t: nat, clock: Time)
    | SendUpstream(t: nat)
    | InspectSimulation(t: nat, token: PermitToken, action: Action, now: Time)
    | ConsumeSimulation(t: nat, clock: Time)
    | GiveUp(t: nat)
    | RegisterKey(keyID: string, key: PublicKey)
    | StoreStep(op: Op)

  function Do(w: World, op: Op): World {
    w.(store := Apply(w.store, op).0, ops := w.ops + [op])
  }

  function Leave(w: World, t: nat): World { w.(threads := w.threads - {t}) }

  function Enter(w: World, t: nat, thread: Thread): World { w.(threads := w.threads[t := thread]) }

  function CaptureStep(w: World, t: nat, request: IssueRequest, started: Time): World {
    if t in w.threads then w
    else
      var authority := AuthorityOf(w.store, request.Domain());
      Enter(Do(w, ReadAuthority(request.Domain())), t, Captured(request, authority, |w.ops|, started))
  }

  /** The claims of an execution permit, when authority, profile and lifetime allow one. */
  ghost function IssueClaims(env: Env, thread: Thread, terms: IssueTerms): Option<Claims>
    requires thread.Captured?
  {
    var request := thread.request;
    var prepared := Prepare(env.issuing, request.input);
    var ttl := RequestedTTL(env.ttlSeconds, request.limits, thread.started);
    if !thread.authority.enabled || prepared.Err? || ttl.None? then None
    else match Digest(env.hash, prepared.value.action)
      case Err(_) => None
      case Ok(digest) =>
        Some(ClaimsFor(env.cfg.issuer, Execution, request.requestID, request.workload, prepared.value.action, digest,
                       thread.authority.epoch, terms, ttl.value))
  }

  /** Register the claims and, when that succeeds, remember where the permit came from. */
  function RegisterStep(w: World, c: Claims, origin: Origin, issuance: Option<Issuance>): World {
    var next := Do(w, Op.Register(c));
    if Apply(w.store, Op.Register(c)).1 != Registered then next
    else
      next.(origins := w.origins[c.permitID := origin],
            issued := if issuance.Some? then w.issued[c.permitID := issuance.value] else w.issued)
  }

  /** Policy allowed the request: prepare, digest, build the claims, register. */
  ghost function IssueStep(env: Env, w: World, t: nat, terms: IssueTerms): World {
    if t !in w.threads || !w.threads[t].Captured? then w
    else
      var thread := w.threads[t];
      match IssueClaims(env, thread, terms)
      case None => Leave(w, t)
      case Some(c) =>
        Leave(RegisterStep(w, c, Origin(thread.request.limits, thread.started),
                           Some(Issuance(thread.request, thread.at, |w.ops|))), t)
  }

  /** The claims of a simulation permit: no executor key, no execution binding and no authority epoch. */
  ghost function SimulationClaims(env: Env, requestID: string, action: Action, origin: Origin, terms: IssueTerms)
    : Option<Claims>
  {
    var a := action.(executionBinding := "");
    var ttl := RequestedTTL(env.ttlSeconds, origin.limits, origin.started);
    if ttl.None? then None
    else match Digest(env.hash, a)
      case Err(_) => None
      case Ok(digest) =>
        Some(ClaimsFor(env.cfg.issuer, Simulation, requestID, Workload("", ""), a, digest, 0, terms, ttl.value))
  }

  ghost function SimulateStep(env: Env, w: World, requestID: string, action: Action, origin: Origin, terms: IssueTerms)
    : World
  {
    match SimulationClaims(env, requestID, action, origin, terms)
    case None => w
    case Some(c) => RegisterStep(w, c, origin, None)
  }

  function InspectStep(env: Env, w: World, t: nat, token: PermitToken, permitClass: PermitClass, now: Time,
                       ready: Thread): World {
    if t in w.threads || TokenOutcome(env.cfg, token, permitClass) != Verified then w
    else
      var next := Do(w, Op.Get(token.claims.permitID, now));
      if Inspect(env.cfg, w.store, token, permitClass, now).1.outcome == Verified then Enter(next, t, ready) else next
  }

  ghost function CallOutcome(env: Env, keys: map<string, PublicKey>, call: Call): Outcome
    requires call.token.PermitToken? && Prepare(env.executing, call.input).Ok?
  {
    ProofOutcome(env.hash, keys, call.token.claims, call.proof, Prepare(env.executing, call.input).value.action,
                 call.httpMethod, call.httpPath, call.now)
  }

  ghost function CheckStep(env: Env, w: World, t: nat): World {
    if t !in w.threads || !w.threads[t].Inspected? then w
    else
      var call := w.threads[t].call;
      if call.token.PermitToken? && Prepare(env.executing, call.input).Ok? && CallOutcome(env, w.keys, call) == Verified
      then Enter(w, t, Checked(call)) else Leave(w, t)
  }

  function SpendStep(w: World, t: nat): World {
    if t !in w.threads || !w.threads[t].Checked? || w.threads[t].call.proof.Malformed? then w
    else
      var call := w.threads[t].call;
      var attempt := AttemptOf(call.proof, call.now);
      var (nonces, first) := ExecutionProof.Step(w.nonces, attempt);
      var next := w.(nonces := nonces, attempts := w.attempts + [attempt]);
      if first then Enter(next, t, Spent(call, |w.attempts|)) else Leave(next, t)
  }

  function ConsumeStep(w: World, t: nat, clock: Time): World {
    if t !in w.threads || !w.threads[t].Spent? || w.threads[t].call.token.NoToken? then w
    else
      var Spent(call, nonceIndex) := w.threads[t];
      var op := Op.Consume(call.token.claims.permitID, ConsumeTime(call.now, clock));
      var response := Apply(w.store, op).1;
      if response.ConsumeResult? && response.outcome == Succeeded
      then Enter(Do(w, op), t, Authorized(Grant(call, nonceIndex, |w.ops|)))
      else Leave(Do(w, op), t)
  }

  /** The tool of the body, the prepared route and the prepared arguments go out together. */
  ghost function SendStep(env: Env, w: World, t: nat): World {
    if t !in w.threads || !w.threads[t].Authorized? || Prepare(env.executing, w.threads[t].grant.call.input).Err? then w
    else
      var g := w.threads[t].grant;
      var p := Prepare(env.executing, g.call.input).value;
      Leave(w, t).(dispatched := w.dispatched + [Dispatch(g, g.call.input.tool, p.upstreamURL, p.arguments)])
  }

  function ConsumeSimulationStep(w: World, t: nat, clock: Time): World {
    if t !in w.threads || !w.threads[t].SimulationReady? then w
    else Leave(Do(w, Op.Consume(w.threads[t].claims.permitID, ConsumeTime(w.threads[t].inspectedAt, clock))), t)
  }

  function RegisterKeyStep(w: World, keyID: string, key: PublicKey): World {
    if ValidKeyID(keyID) && |key| == 32 && (keyID in w.keys ==> w.keys[keyID] == key)
    then w.(keys := w.keys[keyID := key]) else w
  }

  /** A workload key is registered, whatever it was before, exactly when its id is valid, it has 32 bytes, and the id is
      not bound to another key; no other key changes. */
  lemma KeyRegistersExactly(w: World, keyID: string, key: PublicKey)
    ensures var x := RegisterKeyStep(w, keyID, key);
            && (keyID in x.keys && x.keys[keyID] == key <==>
                || (keyID in w.keys && w.keys[keyID] == key)
                || (keyID !in w.keys && ValidKeyID(keyID) && |key| == 32))
            && (forall k | k != keyID :: k in x.keys <==> k in w.keys)
            && (forall k | k in w.keys :: k in x.keys && x.keys[k] == w.keys[k])
            && x == w.(keys := x.keys)
  {
    hide ValidKeyID;
  }

  /** Steps of the store that need no thread: none of them consumes, and none registers a permit. */
  predicate Unthreaded(op: Op) { !op.Consume? && !op.Register? }

  /** A step that is not enabled leaves the world as it is. */
  ghost function Next(env: Env, w: World, step: Step): World {
    match step
    case Capture(t, request, started) => CaptureStep(w, t, request, started)
    case Issue(t, terms) => IssueStep(env, w, t, terms)
    case IssueSimulation(requestID, action, origin, terms) => SimulateStep(env, w, requestID, action, origin, terms)
    case InspectCall(t, call) =>
      if Prepare(env.executing, call.input).Err? then w
      else InspectStep(env, w, t, call.token, Execution, call.now, Inspected(call))
    case CheckCall(t) => CheckStep(env, w, t)
    case SpendNonce(t) => SpendStep(w, t)
    case ConsumePermit(t, clock) => ConsumeStep(w, t, clock)
    case SendUpstream(t) => SendStep(env, w, t)
    case InspectSimulation(t, token, action, now) =>
      if token.NoToken? || ActionBinding(env.hash, action, token.claims) != Verified then w
      else InspectStep(env, w, t, token, Simulation, now, SimulationReady(token.claims, now))
    case ConsumeSimulation(t, clock) => ConsumeSimulationStep(w, t, clock)
    case GiveUp(t) => Leave(w, t)
    case RegisterKey(keyID, key) => RegisterKeyStep(w, keyID, key)
    case StoreStep(op) => if Unthreaded(op) then Do(w, op) else w
  }

  /** The world after the first n steps of a run. */
  ghost function WorldAfter(env: Env, run: seq<Step>, n: nat): World
    requires n <= |run|
  {
    if n == 0 then START else Next(env, WorldAfter(env, run, n - 1), run[n - 1])
  }

  // ---------------------------------------------------------------- the component runs

  /** The two stores are exactly what their histories of steps make them. */
  ghost predicate Coherent(w: World) {
    && w.store == After(w.ops, |w.ops|)
    && w.nonces == NoncesAfter(w.attempts, |w.attempts|)
  }

  /** What no step takes back. */
  ghost predicate Extends(w: World, x: World) {
    && w.ops <= x.ops && w.attempts <= x.attempts && Evolves(w.store, x.store)
    && (forall k | k in w.keys :: k in x.keys && x.keys[k] == w.keys[k])
    && (forall id | id in w.issued :: id in x.issued && x.issued[id] == w.issued[id])
    && w.dispatched <= x.dispatched
  }

  lemma DoCoherent(w: World, op: Op)
    requires Coherent(w)
    ensures Coherent(Do(w, op)) && Evolves(w.store, Do(w, op).store)
  {
    hide Apply, Inv, Evolves;
    var longer := w.ops + [op];
    AfterPrefix(w.ops, longer, |w.ops|);
    RunInv(w.ops, |w.ops|);
    ApplyEvolves(w.store, op);
    assert After(longer, |longer|) == Apply(After(longer, |longer| - 1), op).0;
  }

  lemma SpendCoherent(w: World, attempt: Attempt)
    requires Coherent(w)
    ensures Coherent(w.(nonces := ExecutionProof.Step(w.nonces, attempt).0, attempts := w.attempts + [attempt]))
  {
    hide ExecutionProof.Step;
    var longer := w.attempts + [attempt];
    NoncesPrefix(w.attempts, longer, |w.attempts|);
  }

  lemma StillEvolves(s: Store)
    ensures Evolves(s, s)
  {
  }

  lemma Stutter(w: World)
    ensures Extends(w, w)
  {
    StillEvolves(w.store);
  }

  /** A step that does one store operation and otherwise only adds. */
  lemma DoExtends(w: World, x: World, op: Op)
    requires Coherent(w) && x.store == Do(w, op).store && x.ops == Do(w, op).ops
    requires x.keys == w.keys && x.nonces == w.nonces && x.attempts == w.attempts && x.dispatched == w.dispatched
    requires forall id | id in w.issued :: id in x.issued && x.issued[id] == w.issued[id]
    ensures Coherent(x) && Extends(w, x)
  {
    hide Apply, After, NoncesAfter, Evolves;
    DoCoherent(w, op);
    var y := Do(w, op);
  }

  /** A registered permit had an unused identifier, so issuing never overwrites. */
  lemma RegisterExtends(w: World, c: Claims, origin: Origin, issuance: Option<Issuance>)
    requires Coherent(w) && (forall id | id in w.issued :: id in w.store.records)
    ensures var x := RegisterStep(w, c, origin, issuance); Coherent(x) && Extends(w, x)
  {
    hide Evolves, After, NoncesAfter, ValidClaims, AuthorityHolds, Extends;
    DoExtends(w, RegisterStep(w, c, origin, issuance), Op.Register(c));
  }

  lemma LeaveExtends(w: World, x: World, t: nat)
    requires Coherent(x) && Extends(w, x)
    ensures Coherent(Leave(x, t)) && Extends(w, Leave(x, t))
  {
    hide After, NoncesAfter, Evolves;
  }

  lemma IssueExtends(env: Env, w: World, t: nat, terms: IssueTerms)
    requires Coherent(w) && (forall id | id in w.issued :: id in w.store.records)
    ensures Coherent(IssueStep(env, w, t, terms)) && Extends(w, IssueStep(env, w, t, terms))
  {
    hide IssueClaims, RegisterStep, Coherent, Extends;
    Stutter(w);
    LeaveExtends(w, w, t);
    if t in w.threads && w.threads[t].Captured? {
      var thread := w.threads[t];
      var claims := IssueClaims(env, thread, terms);
      if claims.Some? {
        var origin, issuance := Origin(thread.request.limits, thread.started),
          Issuance(thread.request, thread.at, |w.ops|);
        RegisterExtends(w, claims.value, origin, Some(issuance));
        LeaveExtends(w, RegisterStep(w, claims.value, origin, Some(issuance)), t);
      }
    }
  }

  /** A step that touches only threads. */
  lemma LocalExtends(w: World, x: World)
    requires Coherent(w) && x == w.(threads := x.threads)
    ensures Coherent(x) && Extends(w, x)
  {
    Stutter(w);
  }

  lemma InspectExtends(env: Env, w: World, t: nat, token: PermitToken, permitClass: PermitClass, now: Time,
                       ready: Thread)
    requires Coherent(w)
    ensures var x := InspectStep(env, w, t, token, permitClass, now, ready); Coherent(x) && Extends(w, x)
  {
    hide TokenOutcome, Inspect, Apply, Coherent, Extends;
    Stutter(w);
    if t !in w.threads && TokenOutcome(env.cfg, token, permitClass) == Verified {
      VerifiedTokenPresent(env, token, permitClass);
      DoExtends(w, InspectStep(env, w, t, token, permitClass, now, ready), Op.Get(token.claims.permitID, now));
    }
  }

  lemma VerifiedTokenPresent(env: Env, token: PermitToken, permitClass: PermitClass)
    requires TokenOutcome(env.cfg, token, permitClass) == Verified
    ensures token.PermitToken?
  {
  }

  lemma SpendExtends(w: World, t: nat)
    requires Coherent(w)
    ensures Coherent(SpendStep(w, t)) && Extends(w, SpendStep(w, t))
  {
    hide ExecutionProof.Step, Evolves, After, NoncesAfter;
    StillEvolves(w.store);
    if t in w.threads && w.threads[t].Checked? && w.threads[t].call.proof.ProofToken? {
      SpendCoherent(w, AttemptOf(w.threads[t].call.proof, w.threads[t].call.now));
    }
  }

  lemma ConsumeExtends(w: World, t: nat, clock: Time)
    requires Coherent(w)
    ensures Coherent(ConsumeStep(w, t, clock)) && Extends(w, ConsumeStep(w, t, clock))
  {
    hide Apply, Coherent, Extends, ConsumeTime;
    Stutter(w);
    if t in w.threads && w.threads[t].Spent? && w.threads[t].call.token.PermitToken? {
      DoExtends(w, ConsumeStep(w, t, clock),
                Op.Consume(w.threads[t].call.token.claims.permitID, ConsumeTime(w.threads[t].call.now, clock)));
    }
  }

  lemma SimulationExtends(w: World, t: nat, clock: Time)
    requires Coherent(w)
    ensures Coherent(ConsumeSimulationStep(w, t, clock)) && Extends(w, ConsumeSimulationStep(w, t, clock))
  {
    hide Apply, Coherent, Extends, ConsumeTime;
    Stutter(w);
    if t in w.threads && w.threads[t].SimulationReady? {
      DoExtends(w, ConsumeSimulationStep(w, t, clock),
                Op.Consume(w.threads[t].claims.permitID, ConsumeTime(w.threads[t].inspectedAt, clock)));
    }
  }

  lemma SendExtends(env: Env, w: World, t: nat)
    requires Coherent(w)
    ensures Coherent(SendStep(env, w, t)) && Extends(w, SendStep(env, w, t))
  {
    hide Prepare, Evolves, After, NoncesAfter;
    StillEvolves(w.store);
  }

  lemma RegisterKeyExtends(w: World, keyID: string, key: PublicKey)
    requires Coherent(w)
    ensures Coherent(RegisterKeyStep(w, keyID, key)) && Extends(w, RegisterKeyStep(w, keyID, key))
  {
    hide ValidKeyID, Evolves, After, NoncesAfter;
    StillEvolves(w.store);
  }

  lemma StepExtends(env: Env, w: World, step: Step)
    requires Coherent(w) && (forall id | id in w.issued :: id in w.store.records)
    ensures Coherent(Next(env, w, step)) && Extends(w, Next(env, w, step))
  {
    hide Extends, Coherent, Apply, Prepare, IssueStep, InspectStep, CheckStep, SpendStep, ConsumeStep, SendStep,
      ConsumeSimulationStep, RegisterKeyStep, ActionBinding, SimulationClaims, RegisterStep;
    Stutter(w);
    match step
    case Capture(t, request, started) =>
      if t !in w.threads {
        DoExtends(w, CaptureStep(w, t, request, started), ReadAuthority(request.Domain()));
      }
    case Issue(t, terms) => IssueExtends(env, w, t, terms);
    case IssueSimulation(requestID, action, origin, terms) =>
      var claims := SimulationClaims(env, requestID, action, origin, terms);
      if claims.Some? {
        RegisterExtends(w, claims.value, origin, None);
      }
    case InspectCall(t, call) => InspectExtends(env, w, t, call.token, Execution, call.now, Inspected(call));
    case CheckCall(t) => CheckIsLocal(env, w, t);
    case SpendNonce(t) => SpendExtends(w, t);
    case ConsumePermit(t, clock) => ConsumeExtends(w, t, clock);
    case SendUpstream(t) => SendExtends(env, w, t);
    case InspectSimulation(t, token, _, now) =>
      if token.PermitToken? {
        InspectExtends(env, w, t, token, Simulation, now, SimulationReady(token.claims, now));
      }
    case ConsumeSimulation(t, clock) => SimulationExtends(w, t, clock);
    case GiveUp(t) => LocalExtends(w, Leave(w, t));
    case RegisterKey(keyID, key) => RegisterKeyExtends(w, keyID, key);
    case StoreStep(op) => DoExtends(w, Do(w, op), op);
  }

  lemma CheckIsLocal(env: Env, w: World, t: nat)
    requires Coherent(w)
    ensures CheckStep(env, w, t) == w.(threads := CheckStep(env, w, t).threads)
    ensures Coherent(CheckStep(env, w, t)) && Extends(w, CheckStep(env, w, t))
  {
    hide Extends, Coherent, Prepare, CallOutcome;
    LocalExtends(w, CheckStep(env, w, t));
  }
}
