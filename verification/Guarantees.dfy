/**
  The guarantees of the permit protocol, for every interleaving of any number of threads: what is
  sent upstream is what was authorized, at most once, within the permit's lifetime and under an
  authority that was in force throughout.
 */
module Guarantees {
  import opened Wrappers
  import opened CanonicalAction
  import opened Permits
  import opened ExecutionProof
  import opened Verifier
  import opened Prepared
  import opened StoreRuns
  import opened Protocol
  import opened Issuer
  import opened ProtocolSafety

  lemma {:induction false} Reachable(env: Env, run: seq<Step>, n: nat)
    requires n <= |run|
    ensures WorldInv(env, WorldAfter(env, run, n))
    decreases n
  {
    hide Next, WorldInv;
    if n == 0 {
      StartInv(env);
    } else {
      Reachable(env, run, n - 1);
      StepKeeps(env, WorldAfter(env, run, n - 1), run[n - 1]);
    }
  }

  lemma StartInv(env: Env)
    ensures WorldInv(env, START)
  {
    assert START.ops == [] && START.attempts == [];
  }

  // ---------------------------------------------------------------- the action authorized is the action sent

  /** What a call's checks say about its permit and its action. */
  lemma ChecksBindAction(env: Env, w: World, call: Call)
    requires ChecksPassed(env, w, call)
    ensures Prepare(env.executing, call.input).Ok? && call.token.PermitToken?
      && call.token.claims.permitClass == Execution
    ensures Digest(env.hash, Prepare(env.executing, call.input).value.action) == Ok(call.token.claims.actionDigest)
    ensures BindsScalars(call.token.claims, Prepare(env.executing, call.input).value.action)
    ensures call.token.claims.obligations == NO_OBLIGATIONS
  {
    hide Prepare, ValidClaims, ProofOutcome, ProofHolds, Digest, Valid, BindsScalars;
    ChecksExact(env.hash, w.keys, call.token.claims, call.proof, Prepare(env.executing, call.input).value.action,
                call.httpMethod, call.httpPath, call.now);
  }

  lemma RecordOfCall(env: Env, w: World, call: Call)
    requires ChecksPassed(env, w, call)
    ensures call.token.PermitToken? && call.token.claims.permitID in w.store.records
    ensures w.store.records[call.token.claims.permitID].claims == call.token.claims
    ensures ValidClaims(call.token.claims) && call.token.claims.IssuedTime() <= call.now
  {
    hide Prepare, CallOutcome;
  }

  /** Everything a call has met before its nonce: it presents the very claims of a recorded permit in a token signed by
      the issuer, no earlier than their issue, and a fresh proof by the workload key they name; and they bind the
      action that the executing side prepared and demand nothing else. */
  ghost predicate Checks(env: Env, w: World, call: Call) {
    && TokenAuthentic(env.cfg, call.token, Execution) && Prepare(env.executing, call.input).Ok?
    && var c, a := call.token.claims, Prepare(env.executing, call.input).value.action;
       && c.permitID in w.store.records && w.store.records[c.permitID].claims == c
       && c.issuedAt * 1_000_000_000 <= call.now
       && ProofHolds(env.hash, w.keys, c, call.proof, call.httpMethod, call.httpPath, call.now)
       && Valid(a) && BindsScalars(c, a) && Digest(env.hash, a) == Ok(c.actionDigest) && DemandsNothing(c)
  }

  lemma OutcomeOfAuthentic(cfg: Config, token: PermitToken, permitClass: PermitClass)
    ensures TokenOutcome(cfg, token, permitClass) == Verified <==> TokenAuthentic(cfg, token, permitClass)
  {
    hide ValidClaims;
  }

  lemma ChecksAreExact(env: Env, w: World, call: Call)
    ensures ChecksPassed(env, w, call) <==> Checks(env, w, call)
  {
    hide Prepare, TokenOutcome, TokenAuthentic, ProofOutcome, ProofHolds, Digest, Valid, BindsScalars, ValidClaims;
    OutcomeOfAuthentic(env.cfg, call.token, Execution);
    TokenPresent(env.cfg, call.token, Execution);
    if call.token.PermitToken? && Prepare(env.executing, call.input).Ok? {
      var a := Prepare(env.executing, call.input).value.action;
      ChecksExact(env.hash, w.keys, call.token.claims, call.proof, a, call.httpMethod, call.httpPath, call.now);
      ProofIsThere(env.hash, w.keys, call.token.claims, call.proof, call.httpMethod, call.httpPath, call.now);
    }
  }

  lemma TokenPresent(cfg: Config, token: PermitToken, permitClass: PermitClass)
    ensures TokenAuthentic(cfg, token, permitClass) ==> token.PermitToken?
  {
  }

  lemma ProofIsThere(hash: Hash, keys: map<string, PublicKey>, c: Claims, proof: ProofToken, httpMethod: string,
                     httpPath: string, now: Time)
    ensures ProofHolds(hash, keys, c, proof, httpMethod, httpPath, now) ==> proof.ProofToken?
  {
  }

  lemma GrantChecks(env: Env, w: World, g: Grant)
    requires Granted(env, w, g)
    ensures ChecksPassed(env, w, g.call) && g.call.token.PermitToken?
    ensures g.consumeIndex < |w.ops| && SucceedsAt(w.ops, g.consumeIndex, g.call.token.claims.permitID)
    ensures g.call.token.claims.IssuedTime() <= w.ops[g.consumeIndex].now < g.call.token.claims.ExpiresTime()
  {
  }

  /** Every permit that authorized a dispatch was issued, and for a prepared action with the same digest. */
  lemma DispatchWasIssued(env: Env, w: World, i: nat)
    requires WorldInv(env, w) && i < |w.dispatched|
    ensures var d := w.dispatched[i];
            && DispatchOK(env, w, d) && d.grant.call.token.PermitToken?
               && Prepare(env.executing, d.grant.call.input).Ok?
            && d.grant.call.token.claims.permitID in w.issued
            && var issuedInput := w.issued[d.grant.call.token.claims.permitID].request.input;
               && Prepare(env.issuing, issuedInput).Ok?
               && Digest(env.hash, Prepare(env.issuing, issuedInput).value.action) ==
                  Digest(env.hash, Prepare(env.executing, d.grant.call.input).value.action)
               && SameScalars(Prepare(env.issuing, issuedInput).value.action,
                              Prepare(env.executing, d.grant.call.input).value.action)
  {
    hide Prepare, Digest, CallOutcome, ThreadsOK, InspectionPassed, ChecksPassed, NonceSpent;
    var d := w.dispatched[i];
    assert DispatchOK(env, w, d);
    GrantChecks(env, w, d.grant);
    ChecksBindAction(env, w, d.grant.call);
    RecordOfCall(env, w, d.grant.call);
    var id := d.grant.call.token.claims.permitID;
    assert IssuedOK(env, w, id, w.issued[id]);
  }

  /** In every interleaving and for any two registries, the eleven scalar fields of the action executed are
      those of the action authorized; and, unless the hash confuses the inputs compared, the tool, the route and the
      argument value of each upstream call are those prepared when its permit was issued. */
  lemma SentIsWhatWasAuthorized(env: Env, run: seq<Step>, n: nat, i: nat)
    requires Built(env.hash, env.issuing) && Built(env.hash, env.executing)
    requires n <= |run| && i < |WorldAfter(env, run, n).dispatched|
    ensures var w := WorldAfter(env, run, n);
            var d := w.dispatched[i];
            && d.grant.call.token.PermitToken? && d.grant.call.token.claims.permitID in w.issued
            && var issuedInput := w.issued[d.grant.call.token.claims.permitID].request.input;
               && Prepare(env.issuing, issuedInput).Ok? && Prepare(env.executing, d.grant.call.input).Ok?
               && SameScalars(Prepare(env.issuing, issuedInput).value.action,
                              Prepare(env.executing, d.grant.call.input).value.action)
               && (SeparatesPrepared(env.hash, env.issuing, issuedInput, env.executing, d.grant.call.input) ==>
                     var p := Prepare(env.issuing, issuedInput).value;
                     && d.tool == p.action.tool && d.upstreamURL == p.upstreamURL
                     && ParseArguments(d.arguments).Ok? && ParseArguments(p.arguments).Ok?
                     && ArgumentsMeaning(d.arguments) == ArgumentsMeaning(p.arguments))
  {
    hide Next, Prepare, Digest, Granted, WorldInv, SeparatesPrepared, ArgumentsMeaning, ParseArguments, Built,
      SameScalars;
    var w := WorldAfter(env, run, n);
    Reachable(env, run, n);
    DispatchWasIssued(env, w, i);
    var call := w.dispatched[i].grant.call;
    var issuedInput := w.issued[call.token.claims.permitID].request.input;
    if SeparatesPrepared(env.hash, env.issuing, issuedInput, env.executing, call.input) {
      PreparedAgree(env.hash, env.issuing, issuedInput, env.executing, call.input);
      PreparedIsBound(env.hash, env.issuing, issuedInput);
    }
  }

  // ---------------------------------------------------------------- at most once, in time

  lemma ConsumedRecordStays(ops: seq<Op>, i: nat, id: string)
    requires SucceedsAt(ops, i, id)
    ensures var s := After(ops, |ops|);
            id in s.records && s.records[id].state == Consumed && s.records[id].consumedAt == Some(ops[i].now)
    ensures id in After(ops, i).records && AuthorityHolds(After(ops, i), After(ops, i).records[id].claims)
    ensures After(ops, i).records[id].claims == After(ops, |ops|).records[id].claims
  {
    hide ValidClaims, AuthorityHolds, Inv, Evolves;
    assert After(ops, i + 1).records[id].state == Consumed;
    TerminalForever(ops, i + 1, |ops|, id);
    TerminalForever(ops, i, |ops|, id);
  }

  /** Each dispatch has a consumption of its own, of a permit of its own, inside the permit's
      lifetime and while the permit's authority was enabled at the permit's epoch. */
  lemma EachDispatchConsumesItsPermit(env: Env, run: seq<Step>, n: nat, i: nat)
    requires n <= |run| && i < |WorldAfter(env, run, n).dispatched|
    ensures var w := WorldAfter(env, run, n);
            var g := w.dispatched[i].grant;
            && g.call.token.PermitToken?
            && var c := g.call.token.claims;
               && Checks(env, w, g.call)
               && SucceedsAt(w.ops, g.consumeIndex, c.permitID) && InForce(After(w.ops, g.consumeIndex), c)
               && c.permitID in w.store.records && w.store.records[c.permitID].claims == c
               && w.store.records[c.permitID].state == Consumed
               && w.store.records[c.permitID].consumedAt == Some(w.ops[g.consumeIndex].now)
               && c.IssuedTime() <= w.ops[g.consumeIndex].now < c.ExpiresTime()
    ensures forall j | 0 <= j < |WorldAfter(env, run, n).dispatched| && j != i ::
              var w := WorldAfter(env, run, n);
              && w.dispatched[j].grant.consumeIndex != w.dispatched[i].grant.consumeIndex
              && w.dispatched[j].grant.call.token.PermitToken?
              && w.dispatched[j].grant.call.token.claims.permitID != w.dispatched[i].grant.call.token.claims.permitID
  {
    hide Next, ChecksPassed, Checks, NonceSpent, SucceedsAt, AuthorityHolds, InForce, IssuedOK, After, NoncesAfter;
    var w := WorldAfter(env, run, n);
    Reachable(env, run, n);
    GrantFacts(env, w, i);
    var id := w.dispatched[i].grant.call.token.claims.permitID;
    ChecksAreExact(env, w, w.dispatched[i].grant.call);
    InForceExact(After(w.ops, w.dispatched[i].grant.consumeIndex), w.dispatched[i].grant.call.token.claims);
    ConsumedRecordStays(w.ops, w.dispatched[i].grant.consumeIndex, id);
    forall j | 0 <= j < |w.dispatched| && j != i
      ensures w.dispatched[j].grant.consumeIndex != w.dispatched[i].grant.consumeIndex
              && w.dispatched[j].grant.call.token.PermitToken?
              && w.dispatched[j].grant.call.token.claims.permitID != id
    {
      GrantFacts(env, w, j);
      if w.dispatched[j].grant.call.token.claims.permitID == id {
        ConsumeSucceedsOnce(w.ops, w.dispatched[i].grant.consumeIndex, w.dispatched[j].grant.consumeIndex, id);
      }
    }
  }

  lemma GrantFacts(env: Env, w: World, i: nat)
    requires WorldInv(env, w) && i < |w.dispatched|
    ensures var g := w.dispatched[i].grant;
            && g.call.token.PermitToken? && SucceedsAt(w.ops, g.consumeIndex, g.call.token.claims.permitID)
            && g.consumeIndex < |w.ops| && ChecksPassed(env, w, g.call)
            && g.call.token.claims.permitID in w.store.records
            && w.store.records[g.call.token.claims.permitID].claims == g.call.token.claims
            && g.call.token.claims.IssuedTime() <= w.ops[g.consumeIndex].now < g.call.token.claims.ExpiresTime()
  {
    hide ChecksPassed, NonceSpent, SucceedsAt, Granted, IssuedOK, ThreadsOK, Coherent;
    assert DispatchOK(env, w, w.dispatched[i]);
    GrantChecks(env, w, w.dispatched[i].grant);
    RecordOfCall(env, w, w.dispatched[i].grant.call);
  }

  /** In every reachable world, a consumed permit of either class was consumed no earlier than its issue and
      before its expiry, whatever the clock readings and whatever became of the thread that consumed it. */
  lemma ConsumedWithinLifetime(env: Env, run: seq<Step>, n: nat, id: string)
    requires n <= |run| && id in WorldAfter(env, run, n).store.records
    requires WorldAfter(env, run, n).store.records[id].state == Consumed
    ensures var r := WorldAfter(env, run, n).store.records[id];
            r.consumedAt.Some? && r.claims.IssuedTime() <= r.consumedAt.value < r.claims.ExpiresTime()
  {
    RecordedPermitOK(env, run, n, id);
  }

  /** Every permit recorded in a reachable world lives a whole number of seconds between 1 and 900, at most the
      configured lifetime and the limits it was issued under, and its expiry exceeds the delegated authority's by no
      more than its issue second exceeds the start of its authorization. */
  lemma EveryPermitLivesWithin(env: Env, run: seq<Step>, n: nat, id: string)
    requires n <= |run| && id in WorldAfter(env, run, n).store.records
    ensures var w := WorldAfter(env, run, n);
            id in w.origins
            && LivesWithin(w.store.records[id].claims, env.ttlSeconds, w.origins[id].limits, w.origins[id].started)
  {
    RecordedPermitOK(env, run, n, id);
  }

  lemma RecordedPermitOK(env: Env, run: seq<Step>, n: nat, id: string)
    requires n <= |run| && id in WorldAfter(env, run, n).store.records
    ensures var w := WorldAfter(env, run, n); PermitOK(env, w.issued, w.origins, id, w.store.records[id])
  {
    hide Next, Coherent, ThreadsOK, HistoryOK, GrantsDistinct, PermitOK;
    Reachable(env, run, n);
  }

  // ---------------------------------------------------------------- authority throughout issuance

  /** From the capture before policy evaluation to registration, the authority of an issued permit was
      enabled at the permit's epoch in every state of the store, whatever other threads did. */
  lemma AuthorityHeldThroughIssuance(env: Env, run: seq<Step>, n: nat, id: string, k: nat)
    requires n <= |run| && id in WorldAfter(env, run, n).issued
    requires WorldAfter(env, run, n).issued[id].captured <= k <= WorldAfter(env, run, n).issued[id].registered
    ensures var w := WorldAfter(env, run, n);
            && id in w.store.records && w.issued[id].registered < |w.ops|
            && var c := w.store.records[id].claims;
               && RegistersAt(w.ops, w.issued[id].registered, c)
               && AuthorityOf(After(w.ops, k), c.Domain()) == AuthorityState(c.authorityEpoch, true)
  {
    hide Next, Prepare, Digest, ThreadsOK, Granted, Coherent, ResponseTo, After, Arrives;
    var w := WorldAfter(env, run, n);
    Reachable(env, run, n);
    assert IssuedOK(env, w, id, w.issued[id]);
    var c := w.store.records[id].claims;
    PreparedKeepsScope(env.issuing, w.issued[id].request.input);
    AuthorityStableDuringIssue(w.ops, w.issued[id].captured, w.issued[id].registered, c,
                               AuthorityState(c.authorityEpoch, true), k);
  }

  /** The digest of the action prepared for a request, if there is one. */
  ghost function PreparedDigest(env: Env, request: IssueRequest): Option<string> {
    match Prepare(env.issuing, request.input)
    case Err(_) => None
    case Ok(p) => (match Digest(env.hash, p.action) case Err(_) => None case Ok(digest) => Some(digest))
  }

  ghost function EpochOf(s: Store, key: AuthorityKey): nat {
    if key in s.authorities then s.authorities[key].epoch else 1
  }

  /** What a captured request needs to get its permit: an enabled authority, a prepared action with a digest, a
      lifetime of at least one second that every limit allows, names and keys in order, and an unused id. */
  ghost predicate MayIssue(env: Env, s: Store, request: IssueRequest, started: Time, terms: IssueTerms) {
    && PreparedDigest(env, request).Some? && IsDigest(PreparedDigest(env, request).value)
    && (request.Domain() in s.authorities ==> s.authorities[request.Domain()].enabled)
    && Allowed(1, env.ttlSeconds, request.limits, started) && terms.permitID !in s.records
    && Issuable(env.cfg.issuer, Execution, request.requestID, request.workload,
                Prepare(env.issuing, request.input).value.action, EpochOf(s, request.Domain()), terms)
  }

  /** The claims an issuing thread builds, when it builds any. */
  lemma BuiltClaims(env: Env, s: Store, request: IssueRequest, at: nat, started: Time, terms: IssueTerms)
    ensures var claims := IssueClaims(env, Captured(request, AuthorityOf(s, request.Domain()), at, started), terms);
            var digest, ttl := PreparedDigest(env, request), RequestedTTL(env.ttlSeconds, request.limits, started);
            && (claims.Some? <==>
                && (request.Domain() in s.authorities ==> s.authorities[request.Domain()].enabled)
                && digest.Some? && Allowed(1, env.ttlSeconds, request.limits, started))
            && (ttl.Some? <==> Allowed(1, env.ttlSeconds, request.limits, started))
            && (ttl.Some? ==> ttl.value >= SECOND)
            && (claims.Some? ==>
                  claims.value ==
                  ClaimsFor(env.cfg.issuer, Execution, request.requestID, request.workload,
                            Prepare(env.issuing, request.input).value.action, digest.value,
                            EpochOf(s, request.Domain()), terms, ttl.value))
  {
    hide Prepare, Digest, RequestedTTL;
    LongestAllowedLifetime(env.ttlSeconds, request.limits, started, 1);
  }

  /** An uninterrupted issue registers the claims it builds, and changes nothing when it builds none. */
  lemma IssueRegisters(env: Env, w: World, t: nat, request: IssueRequest, started: Time, terms: IssueTerms)
    requires t !in w.threads
    ensures var claims := IssueClaims(env, Captured(request, AuthorityOf(w.store, request.Domain()), |w.ops|, started),
                                      terms);
            IssueStep(env, CaptureStep(w, t, request, started), t, terms).store ==
            if claims.None? then w.store else Apply(w.store, Op.Register(claims.value)).0
  {
    hide IssueClaims, ApplyRegister;
  }

  lemma PreparedIsValid(r: Prepared.Registry, input: Input)
    requires Prepare(r, input).Ok?
    ensures var a := Prepare(r, input).value.action;
            && Valid(a) && a.executionBinding != "" && a.principalID == input.principalID && a.agentID == input.agentID
            && a.workloadID == input.workloadID
  {
    hide Valid;
    PreparedKeepsScope(r, input);
  }

  /** Claims built for an enabled authority are recorded exactly when they are valid and their id is unused. */
  lemma BuiltIsRegistered(env: Env, s: Store, request: IssueRequest, at: nat, started: Time, terms: IssueTerms)
    requires IssueClaims(env, Captured(request, AuthorityOf(s, request.Domain()), at, started), terms).Some?
    ensures var c := IssueClaims(env, Captured(request, AuthorityOf(s, request.Domain()), at, started), terms).value;
            && c.permitID == terms.permitID && PreparedDigest(env, request).Some?
            && Apply(s, Op.Register(c)).0 ==
               (if MayIssue(env, s, request, started, terms)
                then Store(s.records[c.permitID := Record(c, Issued, None, None, None)], s.authorities) else s)
            && Says(c, env.cfg.issuer, Execution, request.requestID, request.workload,
                    Prepare(env.issuing, request.input).value.action, PreparedDigest(env, request).value,
                    EpochOf(s, request.Domain()), terms, (c.expiresAt - c.issuedAt) * SECOND)
  {
    hide Prepare, Digest, RequestedTTL, Apply, Valid, IsDigest, Issuable, Allowed, IssueClaims, ValidClaims;
    BuiltClaims(env, s, request, at, started, terms);
    var c := IssueClaims(env, Captured(request, AuthorityOf(s, request.Domain()), at, started), terms).value;
    var a := Prepare(env.issuing, request.input).value.action;
    var digest := PreparedDigest(env, request).value;
    PreparedIsValid(env.issuing, request.input);
    RegisterExact(s, c);
    if IsDigest(digest) {
      ValidExactlyWhenIssuable(env.cfg.issuer, Execution, request.requestID, request.workload, a, digest,
                               EpochOf(s, request.Domain()), terms,
                               RequestedTTL(env.ttlSeconds, request.limits, started).value);
    } else {
      ValidClaimsHaveDigest(c);
    }
  }

  lemma ValidClaimsHaveDigest(c: Claims)
    ensures ValidClaims(c) ==> IsDigest(c.actionDigest)
  {
  }

  /** Run without interruption, a capture and its issue register a permit exactly when the request may have one, and
      otherwise leave the store as it is.  The claims recorded say what was prepared and asked for, under the epoch of
      the authority. */
  lemma UninterruptedIssue(env: Env, w: World, t: nat, request: IssueRequest, started: Time, terms: IssueTerms)
    requires t !in w.threads
    ensures var s, x := w.store, Next(env, Next(env, w, Capture(t, request, started)), Issue(t, terms)).store;
            if MayIssue(env, s, request, started, terms) then
              && terms.permitID in x.records
              && var c := x.records[terms.permitID].claims;
                 && x == Store(s.records[terms.permitID := Record(c, Issued, None, None, None)], s.authorities)
                 && Says(c, env.cfg.issuer, Execution, request.requestID, request.workload,
                         Prepare(env.issuing, request.input).value.action, PreparedDigest(env, request).value,
                         EpochOf(s, request.Domain()), terms, (c.expiresAt - c.issuedAt) * SECOND)
            else x == s
  {
    hide Prepare, PreparedDigest, Apply, Allowed, Issuable, IssueClaims, IssueStep, CaptureStep, Says, IsDigest;
    IssueRegisters(env, w, t, request, started, terms);
    BuiltClaims(env, w.store, request, |w.ops|, started, terms);
    if IssueClaims(env, Captured(request, AuthorityOf(w.store, request.Domain()), |w.ops|, started), terms).Some? {
      BuiltIsRegistered(env, w.store, request, |w.ops|, started, terms);
    }
  }

  /** What a simulation needs to get its permit, which names no executor and is bound to no authority. */
  ghost predicate MaySimulate(env: Env, s: Store, requestID: string, a: Action, origin: Origin, terms: IssueTerms) {
    && Digest(env.hash, a).Ok? && IsDigest(Digest(env.hash, a).value)
    && Allowed(1, env.ttlSeconds, origin.limits, origin.started) && terms.permitID !in s.records
    && Issuable(env.cfg.issuer, Simulation, requestID, Workload("", ""), a, 0, terms)
  }

  /** The claims of a simulation, when it has any. */
  lemma SimulationBuilt(env: Env, requestID: string, action: Action, origin: Origin, terms: IssueTerms)
    ensures var claims, a := SimulationClaims(env, requestID, action, origin, terms), action.(executionBinding := "");
            var ttl := RequestedTTL(env.ttlSeconds, origin.limits, origin.started);
            && (claims.Some? <==> Digest(env.hash, a).Ok? && Allowed(1, env.ttlSeconds, origin.limits, origin.started))
            && (claims.Some? ==>
                  && ttl.Some? && ttl.value >= SECOND
                  && claims.value == ClaimsFor(env.cfg.issuer, Simulation, requestID, Workload("", ""), a,
                                               Digest(env.hash, a).value, 0, terms, ttl.value))
  {
    hide Digest, RequestedTTL, Allowed;
    LifetimeIsLong(env.ttlSeconds, origin.limits, origin.started);
  }

  lemma SimulationRegisters(env: Env, w: World, requestID: string, action: Action, origin: Origin, terms: IssueTerms)
    ensures var claims := SimulationClaims(env, requestID, action, origin, terms);
            Next(env, w, IssueSimulation(requestID, action, origin, terms)).store ==
            if claims.None? then w.store else Apply(w.store, Op.Register(claims.value)).0
  {
    hide SimulationClaims, ApplyRegister;
  }

  lemma SimulatedIsRegistered(env: Env, s: Store, requestID: string, action: Action, origin: Origin, terms: IssueTerms)
    requires SimulationClaims(env, requestID, action, origin, terms).Some?
    ensures var c, a := SimulationClaims(env, requestID, action, origin, terms).value, action.(executionBinding := "");
            && c.permitID == terms.permitID && Digest(env.hash, a).Ok?
            && Apply(s, Op.Register(c)).0 ==
               (if MaySimulate(env, s, requestID, a, origin, terms)
                then Store(s.records[c.permitID := Record(c, Issued, None, None, None)], s.authorities) else s)
            && Says(c, env.cfg.issuer, Simulation, requestID, Workload("", ""), a, Digest(env.hash, a).value, 0, terms,
                    (c.expiresAt - c.issuedAt) * SECOND)
  {
    hide Digest, RequestedTTL, Apply, Valid, IsDigest, Issuable, Allowed, ValidClaims, SimulationClaims;
    SimulationBuilt(env, requestID, action, origin, terms);
    var c, a := SimulationClaims(env, requestID, action, origin, terms).value, action.(executionBinding := "");
    RegisterExact(s, c);
    DigestIsOfValid(env.hash, a);
    if IsDigest(c.actionDigest) {
      ValidExactlyWhenIssuable(env.cfg.issuer, Simulation, requestID, Workload("", ""), a, c.actionDigest, 0, terms,
                               RequestedTTL(env.ttlSeconds, origin.limits, origin.started).value);
    } else {
      ValidClaimsHaveDigest(c);
    }
  }

  /** A simulation gets its permit exactly when it may, for the action without its execution binding. */
  lemma SimulationIsIssued(env: Env, w: World, requestID: string, action: Action, origin: Origin, terms: IssueTerms)
    ensures var s, x := w.store, Next(env, w, IssueSimulation(requestID, action, origin, terms)).store;
            var a := action.(executionBinding := "");
            if MaySimulate(env, s, requestID, a, origin, terms) then
              && terms.permitID in x.records
              && var c := x.records[terms.permitID].claims;
                 && x == Store(s.records[terms.permitID := Record(c, Issued, None, None, None)], s.authorities)
                 && Says(c, env.cfg.issuer, Simulation, requestID, Workload("", ""), a, Digest(env.hash, a).value, 0,
                         terms, (c.expiresAt - c.issuedAt) * SECOND)
            else x == s
  {
    hide Digest, Apply, Issuable, Allowed, SimulationClaims, Next, Says, IsDigest;
    SimulationRegisters(env, w, requestID, action, origin, terms);
    SimulationBuilt(env, requestID, action, origin, terms);
    if SimulationClaims(env, requestID, action, origin, terms).Some? {
      SimulatedIsRegistered(env, w.store, requestID, action, origin, terms);
    }
  }

  lemma LifetimeIsLong(ttlSeconds: int, limits: Limits, started: Time)
    ensures var ttl := RequestedTTL(ttlSeconds, limits, started);
            (ttl.Some? <==> Allowed(1, ttlSeconds, limits, started)) && (ttl.Some? ==> ttl.value >= SECOND)
  {
    hide RequestedTTL;
    LongestAllowedLifetime(ttlSeconds, limits, started, 1);
  }

  lemma DigestIsOfValid(hash: Hash, a: Action)
    ensures Digest(hash, a).Ok? ==> Valid(a)
  {
    hide Valid;
  }

  // ---------------------------------------------------------------- who may spend

  /** No proof passes the nonce step twice, whatever the interleaving, while the clock is steady. */
  lemma NoProofSpentTwice(env: Env, run: seq<Step>, n: nat, i: nat, j: nat)
    requires n <= |run| && SteadyClock(WorldAfter(env, run, n).attempts)
    requires var attempts := WorldAfter(env, run, n).attempts;
             PassesAt(attempts, i) && PassesAt(attempts, j) && attempts[i].SameProof(attempts[j])
    ensures i == j
  {
    hide Next, ThreadsOK, IssuedOK, DispatchOK, Coherent, PassesAt, Arrives;
    Reachable(env, run, n);
    ProofUsedOnce(WorldAfter(env, run, n).attempts, i, j);
  }

  lemma InspectKeepsNonces(env: Env, w: World, t: nat, token: PermitToken, permitClass: PermitClass, now: Time,
                           ready: Thread)
    ensures InspectStep(env, w, t, token, permitClass, now, ready).nonces == w.nonces
  {
    hide TokenOutcome, Inspect, Apply;
  }

  lemma IssueKeepsNonces(env: Env, w: World, t: nat, terms: IssueTerms)
    ensures IssueStep(env, w, t, terms).nonces == w.nonces
  {
    hide IssueClaims, Apply;
  }

  lemma ConsumeKeepsNonces(env: Env, w: World, t: nat, clock: Time)
    ensures ConsumeStep(w, t, clock).nonces == w.nonces && SendStep(env, w, t).nonces == w.nonces
    ensures CheckStep(env, w, t).nonces == w.nonces
  {
    hide Apply, ConsumeTime, Prepare, CallOutcome;
  }

  lemma NoncesChangeOnlyBySpending(env: Env, w: World, step: Step)
    requires Next(env, w, step).nonces != w.nonces
    ensures step.SpendNonce? && step.t in w.threads && w.threads[step.t].Checked?
  {
    hide Apply, Prepare, ExecutionProof.Step, ActionBinding, InspectStep, IssueStep, CheckStep, ConsumeStep, SendStep,
      SimulationClaims;
    match step
    case InspectCall(t, call) => InspectKeepsNonces(env, w, t, call.token, Execution, call.now, Inspected(call));
    case InspectSimulation(t, token, _, now) =>
      if token.PermitToken? {
        InspectKeepsNonces(env, w, t, token, Simulation, now, SimulationReady(token.claims, now));
      }
    case Issue(t, terms) => IssueKeepsNonces(env, w, t, terms);
    case ConsumePermit(t, clock) => ConsumeKeepsNonces(env, w, t, clock);
    case SendUpstream(t) => ConsumeKeepsNonces(env, w, t, 0);
    case CheckCall(t) => ConsumeKeepsNonces(env, w, t, 0);
    case _ =>
  }

  /** The nonce store changes only when a call that passed every earlier check arrives. */
  lemma OnlyCheckedCallsReachNonces(env: Env, run: seq<Step>, n: nat)
    requires n < |run| && WorldAfter(env, run, n + 1).nonces != WorldAfter(env, run, n).nonces
    ensures var w := WorldAfter(env, run, n);
            && run[n].SpendNonce? && run[n].t in w.threads && w.threads[run[n].t].Checked?
            && Checks(env, w, w.threads[run[n].t].call)
  {
    hide Next, ChecksPassed, Checks, Coherent, HistoryOK, GrantsDistinct, PermitsOK;
    var w := WorldAfter(env, run, n);
    Reachable(env, run, n);
    NoncesChangeOnlyBySpending(env, w, run[n]);
    ChecksAreExact(env, w, w.threads[run[n].t].call);
    assert ThreadOK(env, w, w.threads[run[n].t]);
  }

  /** A step that changes the store without consuming in its own right does some other operation. */
  lemma OtherStepsDoNotConsume(env: Env, w: World, step: Step, id: string)
    requires !step.ConsumePermit? && !step.ConsumeSimulation?
    requires id in w.store.records && w.store.records[id].state != Consumed
    ensures var t := Next(env, w, step).store; id in t.records ==> t.records[id].state != Consumed
  {
    hide Apply, Prepare, CallOutcome, IssueStep, InspectStep, ActionBinding, ExecutionProof.Step, SimulationClaims,
      RegisterStep;
    var x := Next(env, w, step);
    if id in x.store.records && x.store.records[id].state == Consumed {
      match step
      case Capture(_, request, _) => ConsumesOnlyByConsume(w.store, ReadAuthority(request.Domain()), id);
      case Issue(t, terms) => IssueDoesNotConsume(env, w, t, terms, id);
      case IssueSimulation(requestID, action, origin, terms) =>
        var claims := SimulationClaims(env, requestID, action, origin, terms);
        if claims.Some? {
          RegisterDoesNotConsume(w, claims.value, origin, None, id);
        }
      case InspectCall(t, call) =>
        InspectDoesNotConsume(env, w, t, call.token, Execution, call.now, Inspected(call), id);
      case InspectSimulation(t, token, _, now) =>
        if token.PermitToken? {
          InspectDoesNotConsume(env, w, t, token, Simulation, now, SimulationReady(token.claims, now), id);
        }
      case StoreStep(op) =>
        if Unthreaded(op) {
          ConsumesOnlyByConsume(w.store, op, id);
        }
      case _ =>
    }
  }

  lemma RegisterDoesNotConsume(w: World, c: Claims, origin: Origin, issuance: Option<Issuance>, id: string)
    requires id in w.store.records && w.store.records[id].state != Consumed
    ensures var s := RegisterStep(w, c, origin, issuance).store; id in s.records ==> s.records[id].state != Consumed
  {
    hide Apply;
    var x := RegisterStep(w, c, origin, issuance);
    if id in x.store.records && x.store.records[id].state == Consumed {
      ConsumesOnlyByConsume(w.store, Op.Register(c), id);
    }
  }

  lemma IssueDoesNotConsume(env: Env, w: World, t: nat, terms: IssueTerms, id: string)
    requires id in w.store.records && w.store.records[id].state != Consumed
    ensures var s := IssueStep(env, w, t, terms).store; id in s.records ==> s.records[id].state != Consumed
  {
    hide IssueClaims, RegisterStep;
    if t in w.threads && w.threads[t].Captured? && IssueClaims(env, w.threads[t], terms).Some? {
      var thread := w.threads[t];
      RegisterDoesNotConsume(w, IssueClaims(env, thread, terms).value, Origin(thread.request.limits, thread.started),
                             Some(Issuance(thread.request, thread.at, |w.ops|)), id);
    }
  }

  lemma InspectDoesNotConsume(env: Env, w: World, t: nat, token: PermitToken, permitClass: PermitClass, now: Time,
                              ready: Thread, id: string)
    requires id in w.store.records && w.store.records[id].state != Consumed
    ensures var s := InspectStep(env, w, t, token, permitClass, now, ready).store;
            id in s.records ==> s.records[id].state != Consumed
  {
    hide Apply, Inspect, TokenOutcome;
    var x := InspectStep(env, w, t, token, permitClass, now, ready);
    if x != w && id in x.store.records && x.store.records[id].state == Consumed {
      VerifiedTokenPresent(env, token, permitClass);
      ConsumesOnlyByConsume(w.store, Op.Get(token.claims.permitID, now), id);
    }
  }

  lemma SpentThreadConsumes(env: Env, w: World, t: nat, clock: Time, id: string)
    requires ThreadsOK(env, w) && id in w.store.records && w.store.records[id].state != Consumed
    requires var s := ConsumeStep(w, t, clock).store; id in s.records && s.records[id].state == Consumed
    ensures t in w.threads && w.threads[t].Spent?
    ensures var Spent(call, nonceIndex) := w.threads[t];
            ChecksPassed(env, w, call) && NonceSpent(w, call, nonceIndex)
              && call.token.claims == w.store.records[id].claims
  {
    hide Apply, ChecksPassed, NonceSpent, ConsumeTime;
    var thread := w.threads[t];
    assert ThreadOK(env, w, thread);
    RecordOfCall(env, w, thread.call);
    ConsumesOnlyByConsume(w.store, Op.Consume(thread.call.token.claims.permitID, ConsumeTime(thread.call.now, clock)),
                          id);
  }

  lemma SimulationSparesExecution(env: Env, w: World, t: nat, clock: Time, id: string)
    requires ThreadsOK(env, w) && id in w.store.records && w.store.records[id].state != Consumed
    requires w.store.records[id].claims.permitClass == Execution
    ensures var s := ConsumeSimulationStep(w, t, clock).store; id in s.records ==> s.records[id].state != Consumed
  {
    hide Apply, ConsumeTime;
    var s := ConsumeSimulationStep(w, t, clock).store;
    if id in s.records && s.records[id].state == Consumed {
      var thread := w.threads[t];
      assert ThreadOK(env, w, thread);
      ConsumesOnlyByConsume(w.store, Op.Consume(thread.claims.permitID, ConsumeTime(thread.inspectedAt, clock)), id);
    }
  }

  /** An execution permit is consumed only for a call that presented its very claims, passed every
      check, and spent its nonce. */
  lemma OnlyCheckedCallsConsume(env: Env, run: seq<Step>, n: nat, id: string)
    requires n < |run|
    requires var s, t := WorldAfter(env, run, n).store, WorldAfter(env, run, n + 1).store;
             && id in s.records && s.records[id].claims.permitClass == Execution && s.records[id].state != Consumed
             && id in t.records && t.records[id].state == Consumed
    ensures var w := WorldAfter(env, run, n);
            && run[n].ConsumePermit? && run[n].t in w.threads && w.threads[run[n].t].Spent?
            && var Spent(call, nonceIndex) := w.threads[run[n].t];
               && Checks(env, w, call) && NonceSpent(w, call, nonceIndex)
               && call.token.claims == w.store.records[id].claims
  {
    hide ChecksPassed, Checks, Coherent, HistoryOK, NonceSpent, GrantsDistinct, ThreadsOK, PermitsOK, ConsumeStep,
      ConsumeSimulationStep, IssueStep, InspectStep, CheckStep, SpendStep, SendStep, CaptureStep, RegisterKeyStep,
      SimulateStep, ActionBinding, Prepare, Apply;
    var w := WorldAfter(env, run, n);
    Reachable(env, run, n);
    match run[n]
    case ConsumePermit(t, clock) =>
      SpentThreadConsumes(env, w, t, clock, id);
      ChecksAreExact(env, w, w.threads[t].call);
    case ConsumeSimulation(t, clock) => SimulationSparesExecution(env, w, t, clock, id);
    case _ => OtherStepsDoNotConsume(env, w, run[n], id);
  }

  /** A Consume that consumes stamps the record with its own time. */
  lemma ConsumeStamps(s: Store, id: string, now: Time)
    requires id in s.records && s.records[id].state != Consumed
    requires var t := Apply(s, Op.Consume(id, now)).0; id in t.records && t.records[id].state == Consumed
    ensures var r := Apply(s, Op.Consume(id, now)).0.records[id];
            r.consumedAt == Some(now) && r.claims == s.records[id].claims
  {
    hide AuthorityHolds;
  }

  lemma CallStamps(w: World, t: nat, clock: Time, id: string)
    requires id in w.store.records && w.store.records[id].state != Consumed
    requires var s := ConsumeStep(w, t, clock).store; id in s.records && s.records[id].state == Consumed
    ensures t in w.threads && w.threads[t].Spent?
    ensures var now, r := w.threads[t].call.now, ConsumeStep(w, t, clock).store.records[id];
            r.consumedAt == Some(if now < clock then clock else now) && r.claims == w.store.records[id].claims
  {
    hide Apply, ConsumeTime;
    var call := w.threads[t].call;
    var at := ConsumeTime(call.now, clock);
    ConsumesOnlyByConsume(w.store, Op.Consume(call.token.claims.permitID, at), id);
    ConsumeStamps(w.store, id, at);
  }

  lemma SimulationStamps(w: World, t: nat, clock: Time, id: string)
    requires id in w.store.records && w.store.records[id].state != Consumed
    requires var s := ConsumeSimulationStep(w, t, clock).store; id in s.records && s.records[id].state == Consumed
    ensures t in w.threads && w.threads[t].SimulationReady?
    ensures var thread, r := w.threads[t], ConsumeSimulationStep(w, t, clock).store.records[id];
            && r.consumedAt == Some(if thread.inspectedAt < clock then clock else thread.inspectedAt)
            && r.claims == w.store.records[id].claims && thread.claims.permitID == id
  {
    hide Apply, ConsumeTime;
    var at := ConsumeTime(w.threads[t].inspectedAt, clock);
    ConsumesOnlyByConsume(w.store, Op.Consume(w.threads[t].claims.permitID, at), id);
    ConsumeStamps(w.store, id, at);
  }

  lemma SpentWithinIssue(env: Env, w: World, t: nat, clock: Time, id: string)
    requires ThreadsOK(env, w) && id in w.store.records && w.store.records[id].state != Consumed
    requires var s := ConsumeStep(w, t, clock).store; id in s.records && s.records[id].state == Consumed
    ensures t in w.threads && w.threads[t].Spent?
      && w.store.records[id].claims.IssuedTime() <= w.threads[t].call.now
  {
    hide ChecksPassed, NonceSpent, ConsumeStep, ThreadsOK;
    SpentThreadConsumes(env, w, t, clock, id);
    RecordOfCall(env, w, w.threads[t].call);
  }

  /** In every interleaving a permit is consumed at the later of two readings, the one its thread inspected it at and
      the one taken at the consuming step itself; so none is consumed once the clock has reached its expiry. */
  lemma ConsumedAtLaterReading(env: Env, run: seq<Step>, n: nat, id: string)
    requires n < |run|
    requires var s, t := WorldAfter(env, run, n).store, WorldAfter(env, run, n + 1).store;
             && id in s.records && s.records[id].state != Consumed
             && id in t.records && t.records[id].state == Consumed
    ensures var w, r := WorldAfter(env, run, n), WorldAfter(env, run, n + 1).store.records[id];
            && (run[n].ConsumePermit? || run[n].ConsumeSimulation?) && run[n].t in w.threads
            && var thread, clock := w.threads[run[n].t], run[n].clock;
               && (if run[n].ConsumePermit? then thread.Spent? else thread.SimulationReady?)
               && var first := if thread.Spent? then thread.call.now else thread.inspectedAt;
                  && r.consumedAt == Some(if first < clock then clock else first)
                  && r.claims.IssuedTime() <= first < r.claims.ExpiresTime() && clock < r.claims.ExpiresTime()
  {
    hide ChecksPassed, Coherent, HistoryOK, NonceSpent, GrantsDistinct, PermitsOK, ConsumeStep,
      ConsumeSimulationStep, IssueStep, InspectStep, CheckStep, SpendStep, SendStep, CaptureStep, RegisterKeyStep,
      SimulateStep, ActionBinding, Prepare, Apply;
    var w := WorldAfter(env, run, n);
    Reachable(env, run, n);
    ConsumedWithinLifetime(env, run, n + 1, id);
    match run[n]
    case ConsumePermit(t, clock) =>
      CallStamps(w, t, clock, id);
      assert ThreadOK(env, w, w.threads[t]);
      SpentWithinIssue(env, w, t, clock, id);
    case ConsumeSimulation(t, clock) =>
      SimulationStamps(w, t, clock, id);
      assert ThreadOK(env, w, w.threads[t]);
    case _ => OtherStepsDoNotConsume(env, w, run[n], id);
  }

  /** A call that is rejected before the nonce step leaves only expiry marks behind. */
  lemma RejectedCallLeavesExpiryMarks(env: Env, run: seq<Step>, n: nat)
    requires n < |run| && (run[n].InspectCall? || run[n].CheckCall? || run[n].GiveUp?)
    ensures var w, x := WorldAfter(env, run, n), WorldAfter(env, run, n + 1);
            && x.nonces == w.nonces && x.keys == w.keys && x.issued == w.issued && x.dispatched == w.dispatched
            && x.store.authorities == w.store.authorities && x.store.records.Keys == w.store.records.Keys
            && forall id | id in w.store.records ::
                 || x.store.records[id] == w.store.records[id]
                 || (run[n].InspectCall? && x.store.records[id] == ExpireIfNeeded(w.store.records[id], run[n].call.now))
  {
    hide Prepare, CallOutcome, TokenOutcome, Inspect, InspectStep, CheckStep;
    var w := WorldAfter(env, run, n);
    match run[n]
    case InspectCall(t, call) => InspectLeavesExpiryMarks(env, w, t, call);
    case CheckCall(t) => CheckLeavesNothing(env, w, t);
    case GiveUp(t) =>
  }

  lemma InspectLeavesExpiryMarks(env: Env, w: World, t: nat, call: Call)
    ensures var x := InspectStep(env, w, t, call.token, Execution, call.now, Inspected(call));
            && x.nonces == w.nonces && x.keys == w.keys && x.issued == w.issued && x.dispatched == w.dispatched
            && x.store.authorities == w.store.authorities && x.store.records.Keys == w.store.records.Keys
            && forall id | id in w.store.records ::
                 x.store.records[id] == w.store.records[id]
                   || x.store.records[id] == ExpireIfNeeded(w.store.records[id], call.now)
  {
    hide TokenOutcome, Inspect, ExpireIfNeeded, Apply, InspectStep;
    if call.token.PermitToken? {
      GetLeavesExpiryMarks(w.store, call.token.claims.permitID, call.now);
      InspectReads(env, w, t, call);
    } else {
      UnverifiedWithoutToken(env, w, t, call);
    }
  }

  lemma UnverifiedWithoutToken(env: Env, w: World, t: nat, call: Call)
    requires call.token.NoToken?
    ensures InspectStep(env, w, t, call.token, Execution, call.now, Inspected(call)) == w
  {
  }

  /** An inspection changes the store, if at all, by one Get. */
  lemma InspectReads(env: Env, w: World, t: nat, call: Call)
    requires call.token.PermitToken?
    ensures var x := InspectStep(env, w, t, call.token, Execution, call.now, Inspected(call));
            && x.nonces == w.nonces && x.keys == w.keys && x.issued == w.issued && x.dispatched == w.dispatched
            && (x.store == w.store || x.store == Apply(w.store, Op.Get(call.token.claims.permitID, call.now)).0)
  {
    hide TokenOutcome, Inspect, Apply;
  }

  lemma GetLeavesExpiryMarks(s: Store, id: string, now: Time)
    ensures var t := Apply(s, Op.Get(id, now)).0;
            && t.authorities == s.authorities && t.records.Keys == s.records.Keys
            && forall k | k in s.records ::
               t.records[k] == s.records[k] || t.records[k] == ExpireIfNeeded(s.records[k], now)
  {
    hide ExpireIfNeeded;
  }

  lemma CheckLeavesNothing(env: Env, w: World, t: nat)
    ensures var x := CheckStep(env, w, t); x == w.(threads := x.threads)
  {
    hide Prepare, CallOutcome;
  }

  // ---------------------------------------------------------------- the steps are the code

  lemma InspectStepIsInspect(env: Env, w: World, t: nat, call: Call)
    requires t !in w.threads
    ensures var x := InspectStep(env, w, t, call.token, Execution, call.now, Inspected(call));
            var (store, r) := Inspect(env.cfg, w.store, call.token, Execution, call.now);
            && x.store == store && x.nonces == w.nonces && x.keys == w.keys
               && (r.outcome == Verified <==> t in x.threads)
            && (t in x.threads
                ==> x.threads[t] == Inspected(call) && call.token.PermitToken? && r.claims == Some(call.token.claims)
                                   && r.verifiedAt == call.now && !r.verified)
  {
    hide Apply, Inspect;
    if TokenOutcome(env.cfg, call.token, Execution) == Verified {
      VerifiedTokenPresent(env, call.token, Execution);
    }
    hide TokenOutcome;
    InspectReports(env, w.store, call);
  }

  /** What an inspection reports, whatever its outcome. */
  lemma InspectReports(env: Env, s: Store, call: Call)
    ensures var (store, r) := Inspect(env.cfg, s, call.token, Execution, call.now);
            && r.verifiedAt == call.now && !r.verified
            && (TokenOutcome(env.cfg, call.token, Execution) != Verified ==> store == s && r.outcome != Verified)
            && (TokenOutcome(env.cfg, call.token, Execution) == Verified ==>
                  && r.claims == Some(call.token.claims)
                  && store == Apply(s, Op.Get(call.token.claims.permitID, call.now)).0)
  {
    hide ValidClaims, RecordOutcome, Apply;
  }

  lemma CheckStepIsCheck(env: Env, w: World, t: nat)
    requires t in w.threads && w.threads[t].Inspected? && w.threads[t].call.token.PermitToken?
    requires Prepare(env.executing, w.threads[t].call.input).Ok?
    ensures var x := CheckStep(env, w, t);
            var call := w.threads[t].call;
            && x == w.(threads := x.threads) && (t in x.threads <==> CallOutcome(env, w.keys, call) == Verified)
            && (t in x.threads ==> x.threads[t] == Checked(call) && call.proof.ProofToken?)
  {
    hide Prepare, CallOutcome;
    if CallOutcome(env, w.keys, w.threads[t].call) == Verified {
      ProofWasPresent(env, w.keys, w.threads[t].call);
    }
  }

  lemma AbsentThreadChecksNothing(env: Env, w: World, t: nat)
    requires t !in w.threads
    ensures CheckStep(env, w, t) == w
  {
  }

  lemma InspectNotVerified(env: Env, s: Store, call: Call)
    ensures !Inspect(env.cfg, s, call.token, Execution, call.now).1.verified
  {
    hide ValidClaims, RecordOutcome;
  }

  /** The last two steps of a call, after its checks. */
  lemma SpendAndConsume(env: Env, w: World, t: nat, call: Call, later: Time, r: VResult)
    requires t in w.threads && w.threads[t] == Checked(call) && call.token.PermitToken? && call.proof.ProofToken?
    requires r.outcome == Verified && r.claims == Some(call.token.claims) && r.verifiedAt == call.now
    ensures var x := ConsumeStep(SpendStep(w, t), t, later);
            var (nonces, first) := ExecutionProof.Step(w.nonces, AttemptOf(call.proof, call.now));
            && x.nonces == nonces && (!first ==> x.store == w.store && t !in x.threads)
            && (first ==> var (store, consumed) := ConsumeInspected(w.store, r.(verified := true), later);
                          && x.store == store && (consumed.outcome == Verified <==> t in x.threads)
                          && (consumed.verified <==> t in x.threads)
                          && (t in x.threads ==> x.threads[t].Authorized? && x.threads[t].grant.call == call))
  {
    hide ExecutionProof.Step, Apply, ConsumeTime;
    ConsumeAnswers(w.store, call.token.claims.permitID, ConsumeTime(call.now, later));
  }

  lemma ConsumeAnswers(s: Store, id: string, at: Time)
    ensures Apply(s, Op.Consume(id, at)).1.ConsumeResult?
  {
    hide AuthorityHolds, ExpireIfNeeded;
  }

  /** Run without interruption, the four steps of a call are exactly the verifier's own entry point:
      the same stores afterwards, and authorization exactly when it reports a verified consumption. */
  lemma UninterruptedCall(env: Env, w: World, t: nat, call: Call, later: Time)
    requires t !in w.threads && Prepare(env.executing, call.input).Ok?
    ensures var checked := Next(env, Next(env, w, InspectCall(t, call)), CheckCall(t));
            var x := Next(env, Next(env, checked, SpendNonce(t)), ConsumePermit(t, later));
            var (shared, r) := VerifyAndConsume(env.hash, env.cfg, w.keys, Shared(w.store, w.nonces), call.token,
                                                call.proof, Prepare(env.executing, call.input).value.action,
                                                call.httpMethod, call.httpPath, call.now, later);
            && shared == Shared(x.store, x.nonces)
            && (r.outcome == Verified <==> t in x.threads) && (r.verified <==> t in x.threads)
            && (t in x.threads ==> x.threads[t].Authorized? && x.threads[t].grant.call == call)
  {
    hide Prepare, ProofOutcome, Inspect, InspectStep, CheckStep, ExecutionProof.Step;
    var w1 := InspectStep(env, w, t, call.token, Execution, call.now, Inspected(call));
    InspectStepIsInspect(env, w, t, call);
    var r := Inspect(env.cfg, w.store, call.token, Execution, call.now).1;
    if t in w1.threads {
      CheckStepIsCheck(env, w1, t);
      if t in CheckStep(env, w1, t).threads {
        SpendAndConsume(env, CheckStep(env, w1, t), t, call, later, r);
      }
    } else {
      AbsentThreadChecksNothing(env, w1, t);
      InspectNotVerified(env, w.store, call);
    }
  }

  /** An authorized call sends the tool of its proposal with the route and the arguments that were prepared, once. */
  lemma AuthorizedCallSends(env: Env, w: World, t: nat)
    requires t in w.threads && w.threads[t].Authorized? && Prepare(env.executing, w.threads[t].grant.call.input).Ok?
    ensures var g, x := w.threads[t].grant, Next(env, w, SendUpstream(t));
            var p := Prepare(env.executing, g.call.input).value;
            && x.dispatched == w.dispatched + [Dispatch(g, g.call.input.tool, p.upstreamURL, p.arguments)]
            && t !in x.threads && x.store == w.store && x.nonces == w.nonces
  {
    hide Prepare;
  }

  /** The two steps of a simulation whose action is the one bound are the verifier's simulation entry point. */
  lemma UninterruptedSimulation(env: Env, w: World, t: nat, token: PermitToken, a: Action, now: Time, later: Time)
    requires t !in w.threads && token.PermitToken? && ActionBinding(env.hash, a, token.claims) == Verified
    ensures Next(env, Next(env, w, InspectSimulation(t, token, a, now)), ConsumeSimulation(t, later)).store ==
            SimulateAndConsume(env.hash, env.cfg, w.store, token, a, now, later).0
  {
    hide ActionBinding, TokenOutcome, Apply, ConsumeTime;
    SimulationReports(env, w.store, token, now);
    ConsumeAnswers(w.store, token.claims.permitID, ConsumeTime(now, later));
    ConsumeAnswers(Inspect(env.cfg, w.store, token, Simulation, now).0, token.claims.permitID,
                   ConsumeTime(now, later));
  }

  /** A simulation gets past its inspection exactly when its token is an authentic simulation permit, outstanding and in
      its lifetime, and the action is the one bound. */
  lemma SimulationAdmitted(env: Env, w: World, t: nat, token: PermitToken, a: Action, now: Time)
    requires t !in w.threads
    ensures t in Next(env, w, InspectSimulation(t, token, a, now)).threads <==>
            && TokenAuthentic(env.cfg, token, Simulation)
            && var c := token.claims;
               && InLifetime(w.store, c, now, c.issuedAt * 1_000_000_000)
               && Valid(a) && BindsScalars(c, a) && Digest(env.hash, a) == Ok(c.actionDigest)
  {
    hide ActionBinding, TokenOutcome, Apply, TokenAuthentic, Valid, BindsScalars, Digest, Inspect;
    TokenPresent(env.cfg, token, Simulation);
    if token.PermitToken? {
      OutcomeOfAuthentic(env.cfg, token, Simulation);
      ActionBindingExact(env.hash, a, token.claims);
      InspectExact(env.cfg, w.store, token, Simulation, now);
    }
  }

  lemma SimulationReports(env: Env, s: Store, token: PermitToken, now: Time)
    requires token.PermitToken?
    ensures var (store, r) := Inspect(env.cfg, s, token, Simulation, now);
            && r.verifiedAt == now
            && (TokenOutcome(env.cfg, token, Simulation) != Verified ==> store == s && r.outcome != Verified)
            && (TokenOutcome(env.cfg, token, Simulation) == Verified ==>
                  r.claims == Some(token.claims) && store == Apply(s, Op.Get(token.claims.permitID, now)).0)
  {
    hide ValidClaims, RecordOutcome, Apply;
  }

  /** Every operation of the store but registration and consumption can happen between the steps of any thread. */
  lemma StoreMayChange(env: Env, w: World, op: Op)
    requires !op.Consume? && !op.Register?
    ensures var x := Next(env, w, StoreStep(op));
            && x.store == Apply(w.store, op).0 && x.ops == w.ops + [op] && x.threads == w.threads
            && x.nonces == w.nonces && x.keys == w.keys
  {
    hide Apply;
  }
}
