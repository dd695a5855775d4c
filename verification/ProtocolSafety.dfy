/**
  What holds in every world any interleaving of the permit protocol can reach.
 */
module ProtocolSafety {
  import opened Wrappers
  import opened CanonicalAction
  import opened Permits
  import opened ExecutionProof
  import opened Verifier
  import opened Prepared
  import opened StoreRuns
  import opened Protocol
  import opened Issuer

  // ---------------------------------------------------------------- the invariant

  /** Inspection succeeded: the token is authentic, names a registered permit, carries its very
      claims, and was presented no earlier than the permit's issue time. */
  ghost predicate InspectionPassed(env: Env, w: World, call: Call) {
    && Prepare(env.executing, call.input).Ok?
    && call.token.PermitToken? && TokenOutcome(env.cfg, call.token, Execution) == Verified
    && call.token.claims.permitID in w.store.records
    && w.store.records[call.token.claims.permitID].claims == call.token.claims
    && call.token.claims.IssuedTime() <= call.now
  }

  /** Every check that precedes the nonce step succeeded against keys that are still registered. */
  ghost predicate ChecksPassed(env: Env, w: World, call: Call) {
    && InspectionPassed(env, w, call)
    && CallOutcome(env, w.keys, call) == Verified
    && call.proof.ProofToken?
  }

  ghost predicate NonceSpent(w: World, call: Call, nonceIndex: nat)
    requires call.proof.ProofToken?
  {
    && PassesAt(w.attempts, nonceIndex)
    && w.attempts[nonceIndex] == AttemptOf(call.proof, call.now)
  }

  /** The call passed every check, spent its nonce, and consumed its permit within its lifetime. */
  ghost predicate Granted(env: Env, w: World, g: Grant) {
    && ChecksPassed(env, w, g.call) && NonceSpent(w, g.call, g.nonceIndex)
    && SucceedsAt(w.ops, g.consumeIndex, g.call.token.claims.permitID)
    && g.call.token.claims.IssuedTime() <= w.ops[g.consumeIndex].now < g.call.token.claims.ExpiresTime()
  }

  ghost predicate ThreadOK(env: Env, w: World, thread: Thread) {
    match thread
    case Captured(request, authority, at, _) => CapturesAt(w.ops, at, request.Domain(), authority)
    case Inspected(call) => InspectionPassed(env, w, call)
    case Checked(call) => ChecksPassed(env, w, call)
    case Spent(call, nonceIndex) => ChecksPassed(env, w, call) && NonceSpent(w, call, nonceIndex)
    case Authorized(g) => Granted(env, w, g)
    case SimulationReady(c, inspectedAt) =>
      && c.permitClass == Simulation && c.permitID in w.store.records && w.store.records[c.permitID].claims == c
      && c.IssuedTime() <= inspectedAt
  }

  /** The permit was issued for a prepared action, at an epoch captured before. */
  ghost predicate IssuedOK(env: Env, w: World, id: string, i: Issuance) {
    && id in w.store.records && Prepare(env.issuing, i.request.input).Ok?
    && var c := w.store.records[id].claims;
       var a := Prepare(env.issuing, i.request.input).value.action;
       && Digest(env.hash, a) == Ok(c.actionDigest)
       && c.Domain() == i.request.Domain() && BindsScalars(c, a) && a.executionBinding != ""
       && i.captured < i.registered && RegistersAt(w.ops, i.registered, c)
       && CapturesAt(w.ops, i.captured, c.Domain(), AuthorityState(c.authorityEpoch, true))
  }

  /** What was sent is what was prepared from the call's own proposal. */
  ghost predicate DispatchOK(env: Env, w: World, d: Dispatch) {
    && Granted(env, w, d.grant)
    && d.tool == d.grant.call.input.tool
    && d.upstreamURL == Prepare(env.executing, d.grant.call.input).value.upstreamURL
    && d.arguments == Prepare(env.executing, d.grant.call.input).value.arguments
  }

  /** No consumption is held by two threads, dispatched twice, or both held and dispatched. */
  ghost predicate GrantsDistinct(w: World) {
    && (forall t, u | t in w.threads && u in w.threads && t != u && w.threads[t].Authorized?
        && w.threads[u].Authorized? ::
          w.threads[t].grant.consumeIndex != w.threads[u].grant.consumeIndex)
    && (forall t, i | t in w.threads && w.threads[t].Authorized? && 0 <= i < |w.dispatched| ::
          w.threads[t].grant.consumeIndex != w.dispatched[i].grant.consumeIndex)
    && (forall i, j | 0 <= i < j < |w.dispatched| ::
          w.dispatched[i].grant.consumeIndex != w.dispatched[j].grant.consumeIndex)
  }

  /** A recorded permit of either class has a known origin and lives within its limits, an execution permit was
      issued by an issuing thread, and a consumed permit was consumed inside its lifetime. */
  predicate PermitOK(env: Env, issued: map<string, Issuance>, origins: map<string, Origin>, id: string, r: Record) {
    && (r.claims.permitClass == Execution ==> id in issued)
    && id in origins && LivesWithin(r.claims, env.ttlSeconds, origins[id].limits, origins[id].started)
    && ConsumedInLifetime(r)
  }

  ghost predicate PermitsOK(env: Env, w: World) {
    forall id | id in w.store.records :: PermitOK(env, w.issued, w.origins, id, w.store.records[id])
  }

  ghost predicate ThreadsOK(env: Env, w: World) {
    forall t | t in w.threads :: ThreadOK(env, w, w.threads[t])
  }

  ghost predicate HistoryOK(env: Env, w: World) {
    && (forall id | id in w.issued :: IssuedOK(env, w, id, w.issued[id]))
    && (forall i | 0 <= i < |w.dispatched| :: DispatchOK(env, w, w.dispatched[i]))
    && (forall i | 0 <= i < |w.attempts| :: Arrives(w.attempts[i]))
  }

  ghost predicate WorldInv(env: Env, w: World) {
    Coherent(w) && ThreadsOK(env, w) && HistoryOK(env, w) && GrantsDistinct(w) && PermitsOK(env, w)
  }

  // ---------------------------------------------------------------- what is never taken back

  lemma RecordKept(w: World, x: World, id: string)
    requires Extends(w, x) && id in w.store.records
    ensures id in x.store.records && x.store.records[id].claims == w.store.records[id].claims
  {
  }

  lemma InspectionKept(env: Env, w: World, x: World, call: Call)
    requires Extends(w, x) && InspectionPassed(env, w, call)
    ensures InspectionPassed(env, x, call)
  {
    hide Extends, TokenOutcome, Prepare;
    RecordKept(w, x, call.token.claims.permitID);
  }

  /** Keys are only ever added, so a proof that verified still verifies. */
  lemma ChecksKept(env: Env, w: World, x: World, call: Call)
    requires Extends(w, x) && ChecksPassed(env, w, call)
    ensures ChecksPassed(env, x, call)
  {
    hide InspectionPassed, TokenOutcome, Prepare, VerifiesUnder, Thumbprint, ActionBinding, ValidKeyID, Fresh;
    InspectionKept(env, w, x, call);
    CallWellFormed(env, w, call);
  }

  lemma CallWellFormed(env: Env, w: World, call: Call)
    requires InspectionPassed(env, w, call)
    ensures call.token.PermitToken? && Prepare(env.executing, call.input).Ok?
  {
  }

  lemma StepsKept(w: World, x: World, i: nat, id: string)
    requires w.ops <= x.ops && i < |w.ops|
    ensures x.ops[i] == w.ops[i] && ResponseTo(x.ops, i) == ResponseTo(w.ops, i)
    ensures SucceedsAt(w.ops, i, id) ==> SucceedsAt(x.ops, i, id)
  {
    hide Apply, After;
    AfterPrefix(w.ops, x.ops, i);
  }

  lemma SpentKept(w: World, x: World, call: Call, nonceIndex: nat)
    requires w.attempts <= x.attempts && call.proof.ProofToken? && NonceSpent(w, call, nonceIndex)
    ensures NonceSpent(x, call, nonceIndex)
  {
    hide ExecutionProof.Step, NoncesAfter;
    NoncesPrefix(w.attempts, x.attempts, nonceIndex);
  }

  lemma GrantKept(env: Env, w: World, x: World, g: Grant)
    requires Extends(w, x) && Granted(env, w, g)
    ensures Granted(env, x, g)
  {
    hide InspectionPassed, ChecksPassed, NonceSpent, ResponseTo, Evolves;
    GrantWellFormed(env, w, g);
    ChecksKept(env, w, x, g.call);
    SpentKept(w, x, g.call, g.nonceIndex);
    StepsKept(w, x, g.consumeIndex, g.call.token.claims.permitID);
  }

  lemma GrantWellFormed(env: Env, w: World, g: Grant)
    requires Granted(env, w, g)
    ensures g.call.token.PermitToken? && g.call.proof.ProofToken? && Prepare(env.executing, g.call.input).Ok?
    ensures g.consumeIndex < |w.ops| && w.ops[g.consumeIndex].Consume?
  {
  }

  lemma ThreadKept(env: Env, w: World, x: World, thread: Thread)
    requires Extends(w, x) && ThreadOK(env, w, thread)
    ensures ThreadOK(env, x, thread)
  {
    hide InspectionPassed, ChecksPassed, NonceSpent, Granted, ResponseTo, Evolves;
    match thread
    case Captured(_, _, at, _) => StepsKept(w, x, at, "");
    case Inspected(call) => InspectionKept(env, w, x, call);
    case Checked(call) => ChecksKept(env, w, x, call);
    case Spent(call, nonceIndex) =>
      ChecksKept(env, w, x, call);
      ProofPresent(env, w, call);
      SpentKept(w, x, call, nonceIndex);
    case Authorized(g) => GrantKept(env, w, x, g);
    case SimulationReady(c, _) => RecordKept(w, x, c.permitID);
  }

  lemma ProofPresent(env: Env, w: World, call: Call)
    requires ChecksPassed(env, w, call)
    ensures call.proof.ProofToken?
  {
  }

  lemma IssuedKept(env: Env, w: World, x: World, id: string, i: Issuance)
    requires Extends(w, x) && IssuedOK(env, w, id, i)
    ensures IssuedOK(env, x, id, i)
  {
    hide Prepare, Digest, ResponseTo, Evolves;
    RecordKept(w, x, id);
    StepsKept(w, x, i.captured, "");
    StepsKept(w, x, i.registered, "");
  }

  /** Everything recorded before a step is still in order after it. */
  lemma HistoryKept(env: Env, w: World, x: World)
    requires Extends(w, x) && HistoryOK(env, w)
    ensures forall id | id in w.issued :: IssuedOK(env, x, id, x.issued[id])
    ensures forall i | 0 <= i < |w.dispatched| :: DispatchOK(env, x, x.dispatched[i])
    ensures forall i | 0 <= i < |w.attempts| :: Arrives(x.attempts[i])
  {
    hide IssuedOK, Granted, Evolves, Arrives, Prepare;
    forall id | id in w.issued ensures IssuedOK(env, x, id, x.issued[id]) {
      IssuedKept(env, w, x, id, w.issued[id]);
    }
    forall i | 0 <= i < |w.dispatched| ensures DispatchOK(env, x, x.dispatched[i]) {
      assert DispatchOK(env, w, w.dispatched[i]);
      GrantKept(env, w, x, w.dispatched[i].grant);
    }
  }

  // ---------------------------------------------------------------- what a step adds

  lemma LastResponse(w: World, op: Op)
    requires Coherent(w)
    ensures ResponseTo(Do(w, op).ops, |w.ops|) == Apply(w.store, op).1
  {
    hide Apply;
    AfterPrefix(w.ops, w.ops + [op], |w.ops|);
  }

  lemma InspectionVerifies(cfg: Config, s: Store, token: PermitToken, permitClass: PermitClass, now: Time)
    requires TokenOutcome(cfg, token, permitClass) == Verified
    requires Inspect(cfg, s, token, permitClass, now).1.outcome == Verified
    ensures token.PermitToken? && token.claims.permitClass == permitClass
    ensures var t := Apply(s, Op.Get(token.claims.permitID, now)).0;
            && token.claims.permitID in t.records && t.records[token.claims.permitID].claims == token.claims
            && token.claims.IssuedTime() <= now
  {
    hide ValidClaims;
  }

  /** A consumption through the verifier happens no earlier than the permit's issue and before its expiry. */
  lemma ConsumptionInLifetime(s: Store, c: Claims, now: Time, clock: Time)
    requires c.permitID in s.records && s.records[c.permitID].claims == c && ValidClaims(c) && c.IssuedTime() <= now
    requires Apply(s, Op.Consume(c.permitID, ConsumeTime(now, clock))).1.ConsumeResult?
    requires Apply(s, Op.Consume(c.permitID, ConsumeTime(now, clock))).1.outcome == Succeeded
    ensures c.IssuedTime() <= ConsumeTime(now, clock) < c.ExpiresTime()
  {
    assert c.issuedAt > 0;
    hide ValidClaims, AuthorityHolds;
    assert c.IssuedTime() > ZERO_TIME;
  }

  lemma TokenClaimsValid(env: Env, w: World, call: Call)
    requires InspectionPassed(env, w, call)
    ensures ValidClaims(call.token.claims)
  {
  }

  /** Passing the checks includes the freshness and the shape that the nonce step relies on. */
  lemma CheckedArrives(env: Env, w: World, call: Call)
    requires ChecksPassed(env, w, call)
    ensures call.proof.ProofToken? && Arrives(AttemptOf(call.proof, call.now))
  {
    hide InspectionPassed, Prepare, ActionBinding, ValidKeyID, Thumbprint;
    CallWellFormed(env, w, call);
  }

  lemma NewCaptured(env: Env, w: World, request: IssueRequest, started: Time)
    requires Coherent(w)
    ensures ThreadOK(env, Do(w, ReadAuthority(request.Domain())),
                     Captured(request, AuthorityOf(w.store, request.Domain()), |w.ops|, started))
  {
    LastResponse(w, ReadAuthority(request.Domain()));
  }

  lemma NewSpent(env: Env, w: World, x: World, call: Call)
    requires Coherent(w) && ChecksPassed(env, w, call) && Extends(w, x)
    requires x.attempts == w.attempts + [AttemptOf(call.proof, call.now)]
    requires ExecutionProof.Step(w.nonces, AttemptOf(call.proof, call.now)).1
    ensures ThreadOK(env, x, Spent(call, |w.attempts|))
  {
    hide ExecutionProof.Step, InspectionPassed, CallOutcome;
    ChecksKept(env, w, x, call);
    NoncesPrefix(w.attempts, x.attempts, |w.attempts|);
  }

  lemma NewGrant(env: Env, w: World, call: Call, nonceIndex: nat, clock: Time)
    requires Coherent(w) && ChecksPassed(env, w, call) && NonceSpent(w, call, nonceIndex)
    requires call.token.PermitToken?
    requires var response := Apply(w.store, Op.Consume(call.token.claims.permitID, ConsumeTime(call.now, clock))).1;
             response.ConsumeResult? && response.outcome == Succeeded
    ensures Granted(env, Do(w, Op.Consume(call.token.claims.permitID, ConsumeTime(call.now, clock))),
                    Grant(call, nonceIndex, |w.ops|))
  {
    hide Apply, TokenOutcome, Prepare, CallOutcome, NonceSpent, Evolves;
    var op := Op.Consume(call.token.claims.permitID, ConsumeTime(call.now, clock));
    var x := Do(w, op);
    DoCoherent(w, op);
    TokenClaimsValid(env, w, call);
    hide ValidClaims, InspectionPassed, ChecksPassed;
    ChecksGiveInspection(env, w, call);
    ConsumptionInLifetime(w.store, call.token.claims, call.now, clock);
    ChecksKept(env, w, x, call);
    SpentKept(w, x, call, nonceIndex);
    LastResponse(w, op);
  }

  lemma ChecksGiveInspection(env: Env, w: World, call: Call)
    requires ChecksPassed(env, w, call)
    ensures InspectionPassed(env, w, call) && call.proof.ProofToken? && call.token.PermitToken?
    ensures call.token.claims.permitID in w.store.records
    ensures w.store.records[call.token.claims.permitID].claims == call.token.claims
    ensures call.token.claims.IssuedTime() <= call.now
  {
  }

  /** No operation but Register adds records, none changes claims, and a consumption whose reading is no
      earlier than the permit's issue happens inside its lifetime. */
  lemma StoreOpKeeps(env: Env, w: World, op: Op)
    requires Coherent(w) && PermitsOK(env, w) && !op.Register?
    requires op.Consume? && op.id in w.store.records ==> w.store.records[op.id].claims.IssuedTime() <= op.now
    ensures PermitsOK(env, Do(w, op))
  {
    hide Apply, After, NoncesAfter, LivesWithin, ConsumedInLifetime, Inv;
    var x := Do(w, op);
    RunInv(w.ops, |w.ops|);
    forall id | id in x.store.records ensures PermitOK(env, x.issued, x.origins, id, x.store.records[id]) {
      if id in w.store.records {
        assert PermitOK(env, w.issued, w.origins, id, w.store.records[id]);
        ClaimsUnchanged(w.store, op, id);
        OpKeepsConsumedInLifetime(w.store, op, id);
      } else {
        AddedBy(w.store, op, id);
      }
    }
  }

  /** A registration adds a permit of known origin and touches no other record. */
  lemma RegisterKeeps(env: Env, w: World, c: Claims, origin: Origin, issuance: Option<Issuance>)
    requires Coherent(w) && PermitsOK(env, w)
    requires LivesWithin(c, env.ttlSeconds, origin.limits, origin.started)
    requires c.permitClass == Execution ==> issuance.Some?
    ensures PermitsOK(env, RegisterStep(w, c, origin, issuance))
  {
    hide After, NoncesAfter, LivesWithin, Apply;
    var x := RegisterStep(w, c, origin, issuance);
    RegisteredRecord(w.store, c);
    forall id | id in x.store.records ensures PermitOK(env, x.issued, x.origins, id, x.store.records[id]) {
      if id in w.store.records {
        assert PermitOK(env, w.issued, w.origins, id, w.store.records[id]);
      }
    }
  }

  lemma RegisteredRecord(s: Store, c: Claims)
    ensures var (t, response) := Apply(s, Op.Register(c));
            if response == Registered
            then c.permitID !in s.records && t.records == s.records[c.permitID := Record(c, Issued, None, None, None)]
            else t.records == s.records
  {
    hide ValidClaims, AuthorityHolds;
  }

  lemma AddedBy(s: Store, op: Op, id: string)
    requires id in Apply(s, op).0.records && id !in s.records
    ensures op.Register? && op.claims.permitID == id && Apply(s, op).1 == Registered
    ensures Apply(s, op).0.records[id].claims == op.claims
  {
    hide ValidClaims, AuthorityHolds;
  }

  lemma ClaimsUnchanged(s: Store, op: Op, id: string)
    requires Inv(s) && id in s.records
    ensures id in Apply(s, op).0.records && Apply(s, op).0.records[id].claims == s.records[id].claims
  {
    hide Apply, Inv;
    ApplyEvolves(s, op);
  }

  // ---------------------------------------------------------------- every step keeps the invariant

  /** The threads after a step are threads from before it, and possibly one that moved. */
  lemma ThreadsKept(env: Env, w: World, x: World, t: nat)
    requires Extends(w, x) && ThreadsOK(env, w)
    requires forall u | u in x.threads ::
      (u in w.threads && x.threads[u] == w.threads[u]) || (u == t && ThreadOK(env, x, x.threads[u]))
    ensures ThreadsOK(env, x)
  {
    hide ThreadOK, Extends;
    forall u | u in x.threads ensures ThreadOK(env, x, x.threads[u]) {
      if u in w.threads && x.threads[u] == w.threads[u] {
        ThreadKept(env, w, x, w.threads[u]);
      }
    }
  }

  /** Grants held before a step consumed at positions of the run that existed before it. */
  lemma GrantsInThePast(env: Env, w: World)
    requires ThreadsOK(env, w) && HistoryOK(env, w)
    ensures forall t | t in w.threads && w.threads[t].Authorized? :: w.threads[t].grant.consumeIndex < |w.ops|
    ensures forall i | 0 <= i < |w.dispatched| :: w.dispatched[i].grant.consumeIndex < |w.ops|
  {
    hide Granted, IssuedOK;
    forall t | t in w.threads && w.threads[t].Authorized? ensures w.threads[t].grant.consumeIndex < |w.ops| {
      assert ThreadOK(env, w, w.threads[t]);
      GrantWellFormed(env, w, w.threads[t].grant);
    }
    forall i | 0 <= i < |w.dispatched| ensures w.dispatched[i].grant.consumeIndex < |w.ops| {
      assert DispatchOK(env, w, w.dispatched[i]);
      GrantWellFormed(env, w, w.dispatched[i].grant);
    }
  }

  /** A step that issues nothing, dispatches nothing, arrives at no nonce and grants nothing. */
  lemma QuietStep(env: Env, w: World, x: World, t: nat)
    requires WorldInv(env, w) && Extends(w, x) && Coherent(x) && PermitsOK(env, x)
    requires x.issued == w.issued && x.dispatched == w.dispatched && x.attempts == w.attempts
    requires forall u | u in x.threads :: (u in w.threads && x.threads[u] == w.threads[u])
                                          || (u == t && ThreadOK(env, x, x.threads[u]) && !x.threads[u].Authorized?)
    ensures WorldInv(env, x)
  {
    hide ThreadOK, Extends, Coherent, IssuedOK, DispatchOK, Arrives, PermitsOK;
    ThreadsKept(env, w, x, t);
    HistoryKept(env, w, x);
    PrefixOf(w, x);
  }

  lemma PrefixOf(w: World, x: World)
    requires Extends(w, x)
    ensures w.dispatched <= x.dispatched && w.attempts <= x.attempts && w.ops <= x.ops
  {
  }

  lemma IssuedRecorded(env: Env, w: World)
    requires WorldInv(env, w)
    ensures forall id | id in w.issued :: id in w.store.records
  {
    hide DispatchOK, Arrives, ThreadOK, Prepare, Digest, PermitsOK;
    forall id | id in w.issued ensures id in w.store.records {
      assert IssuedOK(env, w, id, w.issued[id]);
    }
  }

  lemma CaptureKeeps(env: Env, w: World, x: World, t: nat, request: IssueRequest, started: Time)
    requires WorldInv(env, w) && Extends(w, x) && Coherent(x)
    requires t !in w.threads && x == CaptureStep(w, t, request, started)
    ensures WorldInv(env, x)
  {
    hide ThreadOK, HistoryOK, GrantsDistinct, Extends, Coherent, Apply, PermitOK;
    NewCaptured(env, w, request, started);
    StoreOpKeeps(env, w, ReadAuthority(request.Domain()));
    ThreadSame(env, Do(w, ReadAuthority(request.Domain())), x, x.threads[t]);
    QuietStep(env, w, x, t);
  }

  /** Whether a thread is in order does not depend on the other threads. */
  lemma ThreadSame(env: Env, w: World, x: World, thread: Thread)
    requires x == w.(threads := x.threads)
    ensures ThreadOK(env, w, thread) == ThreadOK(env, x, thread)
  {
    hide TokenOutcome, Prepare, ProofOutcome, After, NoncesAfter;
  }

  /** What the claims of an execution permit are made of. */
  lemma ClaimsOfRequest(env: Env, thread: Thread, terms: IssueTerms)
    requires thread.Captured? && IssueClaims(env, thread, terms).Some?
    ensures thread.authority.enabled && Prepare(env.issuing, thread.request.input).Ok?
    ensures var c := IssueClaims(env, thread, terms).value;
            var a := Prepare(env.issuing, thread.request.input).value.action;
            && c.permitClass == Execution && c.permitID == terms.permitID && c.authorityEpoch == thread.authority.epoch
            && Digest(env.hash, a) == Ok(c.actionDigest) && BindsScalars(c, a) && a.executionBinding != ""
            && c.Domain() == thread.request.Domain()
            && LivesWithin(c, env.ttlSeconds, thread.request.limits, thread.started)
  {
    hide Prepare, Digest, RequestedTTL, LivesWithin;
    PreparedKeepsScope(env.issuing, thread.request.input);
    var a := Prepare(env.issuing, thread.request.input).value.action;
    var ttl := RequestedTTL(env.ttlSeconds, thread.request.limits, thread.started).value;
    PermitLifetime(env.cfg.issuer, Execution, thread.request.requestID, thread.request.workload, a,
                   Digest(env.hash, a).value,
                   thread.authority.epoch, terms, ttl, env.ttlSeconds, thread.request.limits, thread.started);
  }

  lemma NewIssuance(env: Env, w: World, thread: Thread, terms: IssueTerms)
    requires Coherent(w) && thread.Captured? && ThreadOK(env, w, thread) && IssueClaims(env, thread, terms).Some?
    ensures var c := IssueClaims(env, thread, terms).value;
            Apply(w.store, Op.Register(c)).1 == Registered ==>
              IssuedOK(env, Do(w, Op.Register(c)), c.permitID, Issuance(thread.request, thread.at, |w.ops|))
  {
    hide Prepare, Digest, ValidClaims, AuthorityHolds, After, NoncesAfter, IssueClaims, BindsScalars, LivesWithin;
    var c := IssueClaims(env, thread, terms).value;
    ClaimsOfRequest(env, thread, terms);
    LastResponse(w, Op.Register(c));
    StepsKept(w, Do(w, Op.Register(c)), thread.at, "");
  }

  lemma IssuedSame(env: Env, w: World, x: World, id: string, i: Issuance)
    requires x.store == w.store && x.ops == w.ops
    ensures IssuedOK(env, w, id, i) == IssuedOK(env, x, id, i)
  {
    hide Prepare, Digest, ResponseTo;
  }

  /** What a registration adds is in order. */
  lemma IssueRecords(env: Env, w: World, x: World, t: nat, terms: IssueTerms)
    requires Coherent(w) && ThreadsOK(env, w) && PermitsOK(env, w) && t in w.threads && w.threads[t].Captured?
    requires x == IssueStep(env, w, t, terms) && IssueClaims(env, w.threads[t], terms).Some?
    ensures forall id | id in x.issued && id !in w.issued :: IssuedOK(env, x, id, x.issued[id])
    ensures PermitsOK(env, x) && x.dispatched == w.dispatched && x.attempts == w.attempts
      && x.threads == w.threads - {t}
  {
    hide IssueClaims, ThreadOK, IssuedOK, Coherent, Apply, PermitOK, LivesWithin;
    var thread := w.threads[t];
    assert ThreadOK(env, w, thread);
    var c := IssueClaims(env, thread, terms).value;
    ClaimsOfRequest(env, thread, terms);
    NewIssuance(env, w, thread, terms);
    var issuance := Issuance(thread.request, thread.at, |w.ops|);
    IssuedSame(env, Do(w, Op.Register(c)), x, c.permitID, issuance);
    RegisterKeeps(env, w, c, Origin(thread.request.limits, thread.started), Some(issuance));
  }

  lemma IssueKeeps(env: Env, w: World, x: World, t: nat, terms: IssueTerms)
    requires WorldInv(env, w) && Extends(w, x) && Coherent(x)
    requires x != w && x == IssueStep(env, w, t, terms)
    ensures WorldInv(env, x)
  {
    hide IssueClaims, HistoryOK, ThreadOK, IssuedOK, Extends, Coherent, GrantsDistinct, PermitsOK, RegisterStep;
    if IssueClaims(env, w.threads[t], terms).None? {
      LocalKeeps(env, w, x, t);
    } else {
      IssueRecords(env, w, x, t, terms);
      ThreadsKept(env, w, x, t);
      HistoryGrows(env, w, x);
      GrantsStayDistinct(env, w, x, t);
    }
  }

  lemma SimulatedClaims(env: Env, requestID: string, action: Action, origin: Origin, terms: IssueTerms)
    requires SimulationClaims(env, requestID, action, origin, terms).Some?
    ensures var c := SimulationClaims(env, requestID, action, origin, terms).value;
            c.permitClass == Simulation && LivesWithin(c, env.ttlSeconds, origin.limits, origin.started)
  {
    hide Digest, RequestedTTL, LivesWithin;
    var a := action.(executionBinding := "");
    var ttl := RequestedTTL(env.ttlSeconds, origin.limits, origin.started).value;
    PermitLifetime(env.cfg.issuer, Simulation, requestID, Workload("", ""), a, Digest(env.hash, a).value, 0, terms, ttl,
                   env.ttlSeconds, origin.limits, origin.started);
  }

  lemma SimulateKeeps(env: Env, w: World, x: World, requestID: string, action: Action, origin: Origin,
                      terms: IssueTerms)
    requires WorldInv(env, w) && Extends(w, x) && Coherent(x)
    requires x != w && x == SimulateStep(env, w, requestID, action, origin, terms)
    ensures WorldInv(env, x)
  {
    hide SimulationClaims, HistoryOK, ThreadOK, Extends, Coherent, GrantsDistinct, PermitsOK, Apply, LivesWithin;
    SimulatedClaims(env, requestID, action, origin, terms);
    RegisterKeeps(env, w, SimulationClaims(env, requestID, action, origin, terms).value, origin, None);
    QuietStep(env, w, x, 0);
  }

  /** The history is in order after a step when everything it adds is. */
  lemma HistoryGrows(env: Env, w: World, x: World)
    requires Extends(w, x) && HistoryOK(env, w)
    requires forall id | id in x.issued && id !in w.issued :: IssuedOK(env, x, id, x.issued[id])
    requires forall i | |w.dispatched| <= i < |x.dispatched| :: DispatchOK(env, x, x.dispatched[i])
    requires forall i | |w.attempts| <= i < |x.attempts| :: Arrives(x.attempts[i])
    ensures HistoryOK(env, x)
  {
    hide IssuedOK, DispatchOK, Arrives, Evolves;
    HistoryKept(env, w, x);
  }

  /** A step that dispatches nothing and grants at most at the position it adds to the run. */
  lemma GrantsStayDistinct(env: Env, w: World, x: World, t: nat)
    requires ThreadsOK(env, w) && HistoryOK(env, w) && GrantsDistinct(w) && x.dispatched == w.dispatched
    requires forall u | u in x.threads :: (u in w.threads && x.threads[u] == w.threads[u])
                                          || (u == t && (x.threads[u].Authorized?
                                                         ==> x.threads[u].grant.consumeIndex == |w.ops|))
    ensures GrantsDistinct(x)
  {
    hide ThreadsOK, HistoryOK;
    GrantsInThePast(env, w);
  }

  lemma InspectStepKeeps(env: Env, w: World, x: World, t: nat, token: PermitToken, permitClass: PermitClass, now: Time,
                         ready: Thread)
    requires WorldInv(env, w) && x != w && token.PermitToken?
    requires x == InspectStep(env, w, t, token, permitClass, now, ready)
    requires Extends(w, x) && Coherent(x)
    requires t in x.threads ==> ThreadOK(env, x, ready) && !ready.Authorized?
    ensures WorldInv(env, x)
  {
    hide ThreadOK, HistoryOK, GrantsDistinct, Extends, Coherent, Apply, TokenOutcome, Inspect, PermitOK;
    StoreOpKeeps(env, w, Op.Get(token.claims.permitID, now));
    QuietStep(env, w, x, t);
  }

  lemma InspectCallKeeps(env: Env, w: World, x: World, t: nat, call: Call)
    requires WorldInv(env, w) && Extends(w, x) && Coherent(x) && x != w
    requires Prepare(env.executing, call.input).Ok?
      && x == InspectStep(env, w, t, call.token, Execution, call.now, Inspected(call))
    ensures WorldInv(env, x)
  {
    hide HistoryOK, ThreadsOK, GrantsDistinct, Extends, Coherent, Apply, TokenOutcome, Inspect, Prepare, PermitsOK;
    VerifiedTokenPresent(env, call.token, Execution);
    if t in x.threads {
      InspectionVerifies(env.cfg, w.store, call.token, Execution, call.now);
    }
    InspectStepKeeps(env, w, x, t, call.token, Execution, call.now, Inspected(call));
  }

  lemma InspectSimulationKeeps(env: Env, w: World, x: World, t: nat, token: PermitToken, now: Time)
    requires WorldInv(env, w) && Extends(w, x) && Coherent(x) && x != w && token.PermitToken?
    requires x == InspectStep(env, w, t, token, Simulation, now, SimulationReady(token.claims, now))
    ensures WorldInv(env, x)
  {
    hide HistoryOK, ThreadsOK, GrantsDistinct, Extends, Coherent, Apply, TokenOutcome, Inspect, ActionBinding,
      PermitsOK;
    if t in x.threads {
      InspectionVerifies(env.cfg, w.store, token, Simulation, now);
    }
    InspectStepKeeps(env, w, x, t, token, Simulation, now, SimulationReady(token.claims, now));
  }

  lemma ThreadHeld(env: Env, w: World, t: nat)
    requires WorldInv(env, w) && t in w.threads
    ensures ThreadOK(env, w, w.threads[t])
  {
    hide HistoryOK, GrantsDistinct, PermitsOK, ThreadOK;
  }

  lemma CheckKeeps(env: Env, w: World, x: World, t: nat)
    requires WorldInv(env, w) && Extends(w, x) && Coherent(x)
    requires x != w && x == CheckStep(env, w, t)
    ensures WorldInv(env, x)
  {
    hide WorldInv, Extends, Coherent, Prepare, CallOutcome, ChecksPassed, InspectionPassed;
    ThreadHeld(env, w, t);
    var call := w.threads[t].call;
    if t in x.threads {
      ProofWasPresent(env, w.keys, call);
      ChecksJustPassed(env, w, call);
      ChecksKept(env, w, x, call);
    }
    PermitsUntouched(env, w, x);
    QuietStep(env, w, x, t);
  }

  lemma PermitsUntouched(env: Env, w: World, x: World)
    requires WorldInv(env, w) && x.store == w.store && x.issued == w.issued && x.origins == w.origins
    ensures PermitsOK(env, x)
  {
    hide HistoryOK, GrantsDistinct, ThreadsOK, PermitOK;
  }

  lemma ChecksJustPassed(env: Env, w: World, call: Call)
    requires InspectionPassed(env, w, call)
    requires call.token.PermitToken? && Prepare(env.executing, call.input).Ok?
      && CallOutcome(env, w.keys, call) == Verified
    ensures ChecksPassed(env, w, call)
  {
    hide InspectionPassed, Prepare, CallOutcome;
    CallWellFormed(env, w, call);
    ProofWasPresent(env, w.keys, call);
  }

  lemma ProofWasPresent(env: Env, keys: map<string, PublicKey>, call: Call)
    requires call.token.PermitToken? && Prepare(env.executing, call.input).Ok?
      && CallOutcome(env, keys, call) == Verified
    ensures call.proof.ProofToken?
  {
    hide Prepare, ActionBinding, VerifiesUnder, Thumbprint;
  }

  lemma SpendKeeps(env: Env, w: World, x: World, t: nat)
    requires WorldInv(env, w) && Extends(w, x) && Coherent(x)
    requires x != w && x == SpendStep(w, t)
    ensures WorldInv(env, x)
  {
    hide Extends, Coherent, HistoryOK, GrantsDistinct, Arrives, ExecutionProof.Step, ChecksPassed, PermitsOK, ThreadsOK;
    ThreadHeld(env, w, t);
    PermitsUntouched(env, w, x);
    var call := w.threads[t].call;
    hide ThreadOK;
    CheckedArrives(env, w, call);
    if t in x.threads {
      NewSpent(env, w, x, call);
    }
    ThreadsKept(env, w, x, t);
    HistoryGrows(env, w, x);
    GrantsStayDistinct(env, w, x, t);
  }

  /** A consumption step does one store operation and moves one thread. */
  lemma ConsumeShape(w: World, x: World, t: nat, clock: Time)
    requires x != w && x == ConsumeStep(w, t, clock)
    ensures t in w.threads && w.threads[t].Spent? && w.threads[t].call.token.PermitToken?
    ensures var call := w.threads[t].call;
            x == Do(w, Op.Consume(call.token.claims.permitID, ConsumeTime(call.now, clock))).(threads := x.threads)
    ensures forall u | u in x.threads ::
              || (u in w.threads && x.threads[u] == w.threads[u])
              || (u == t && x.threads[u].Authorized? && x.threads[u].grant.consumeIndex == |w.ops|)
  {
    hide Apply, ConsumeTime;
  }

  lemma ConsumeKeeps(env: Env, w: World, x: World, t: nat, clock: Time)
    requires WorldInv(env, w) && Extends(w, x) && Coherent(x)
    requires x != w && x == ConsumeStep(w, t, clock)
    ensures WorldInv(env, x)
  {
    hide Extends, Coherent, HistoryOK, ThreadsOK, GrantsDistinct, Apply, ThreadOK, ConsumeTime, PermitOK, ConsumeStep;
    ConsumeShape(w, x, t, clock);
    var Spent(call, _) := w.threads[t];
    NewAuthorized(env, w, x, t, clock);
    SpentReading(env, w, t, clock);
    StoreOpKeeps(env, w, Op.Consume(call.token.claims.permitID, ConsumeTime(call.now, clock)));
    ThreadsKept(env, w, x, t);
    HistoryGrows(env, w, x);
    GrantsStayDistinct(env, w, x, t);
  }

  /** The reading a spent call consumes at is no earlier than its permit's issue. */
  lemma SpentReading(env: Env, w: World, t: nat, clock: Time)
    requires ThreadsOK(env, w) && t in w.threads && w.threads[t].Spent?
    ensures var call := w.threads[t].call;
            && call.token.PermitToken? && call.token.claims.permitID in w.store.records
            && w.store.records[call.token.claims.permitID].claims.IssuedTime() <= ConsumeTime(call.now, clock)
  {
    hide ChecksPassed, NonceSpent;
    assert ThreadOK(env, w, w.threads[t]);
    ChecksGiveInspection(env, w, w.threads[t].call);
  }

  lemma NewAuthorized(env: Env, w: World, x: World, t: nat, clock: Time)
    requires ThreadsOK(env, w) && Coherent(w) && x != w && x == ConsumeStep(w, t, clock)
    ensures t in x.threads ==> ThreadOK(env, x, x.threads[t])
  {
    hide Coherent, Apply, ThreadsOK, ThreadOK, ChecksPassed, NonceSpent, Granted, ConsumeTime;
    if t in x.threads {
      var Spent(call, nonceIndex) := w.threads[t];
      SpentFacts(env, w, t);
      NewGrant(env, w, call, nonceIndex, clock);
      var y := Do(w, Op.Consume(call.token.claims.permitID, ConsumeTime(call.now, clock)));
      AuthorizedOK(env, y, x.threads[t]);
      ThreadSame(env, y, x, x.threads[t]);
    }
  }

  lemma SpentFacts(env: Env, w: World, t: nat)
    requires ThreadsOK(env, w) && t in w.threads && w.threads[t].Spent?
    ensures var Spent(call, nonceIndex) := w.threads[t];
            ChecksPassed(env, w, call) && call.proof.ProofToken? && NonceSpent(w, call, nonceIndex)
  {
    hide NonceSpent, InspectionPassed, CallOutcome;
    assert ThreadOK(env, w, w.threads[t]);
  }

  lemma AuthorizedOK(env: Env, w: World, thread: Thread)
    requires thread.Authorized? && Granted(env, w, thread.grant)
    ensures ThreadOK(env, w, thread)
  {
    hide Granted;
  }

  lemma SendKeeps(env: Env, w: World, x: World, t: nat)
    requires WorldInv(env, w) && Extends(w, x) && Coherent(x)
    requires x != w && x == SendStep(env, w, t)
    ensures WorldInv(env, x)
  {
    hide Extends, Coherent, HistoryOK, ThreadsOK, GrantsDistinct, Prepare, Granted, IssuedOK, PermitOK;
    NewDispatch(env, w, x, t);
    hide DispatchOK;
    ThreadsKept(env, w, x, t);
    HistoryGrows(env, w, x);
    SendStaysDistinct(w, x, t, w.threads[t].grant);
  }

  lemma NewDispatch(env: Env, w: World, x: World, t: nat)
    requires ThreadsOK(env, w) && Extends(w, x) && x != w && x == SendStep(env, w, t)
    ensures |x.dispatched| == |w.dispatched| + 1 && DispatchOK(env, x, x.dispatched[|w.dispatched|])
  {
    hide Extends, Prepare, Granted;
    assert ThreadOK(env, w, w.threads[t]);
    GrantKept(env, w, x, w.threads[t].grant);
  }

  /** A grant leaves its thread as it enters the list of dispatches. */
  lemma SendStaysDistinct(w: World, x: World, t: nat, g: Grant)
    requires GrantsDistinct(w) && t in w.threads && w.threads[t] == Authorized(g) && x.threads == w.threads - {t}
    requires |x.dispatched| == |w.dispatched| + 1 && w.dispatched <= x.dispatched
      && x.dispatched[|w.dispatched|].grant == g
    ensures GrantsDistinct(x)
  {
  }

  lemma LocalKeeps(env: Env, w: World, x: World, t: nat)
    requires WorldInv(env, w) && Extends(w, x) && Coherent(x)
    requires x == Leave(w, t) || x == w.(keys := x.keys)
    ensures WorldInv(env, x)
  {
    hide Extends, Coherent, HistoryOK, ThreadOK, GrantsDistinct, PermitOK;
    QuietStep(env, w, x, t);
  }

  lemma StoreStepKeeps(env: Env, w: World, x: World, t: nat, op: Op)
    requires WorldInv(env, w) && Extends(w, x) && Coherent(x) && !op.Register?
    requires op.Consume? && op.id in w.store.records ==> w.store.records[op.id].claims.IssuedTime() <= op.now
    requires x == Do(w, op) || x == Leave(Do(w, op), t)
    ensures WorldInv(env, x)
  {
    hide Extends, Coherent, HistoryOK, ThreadOK, GrantsDistinct, Apply, PermitOK;
    StoreOpKeeps(env, w, op);
    QuietStep(env, w, x, t);
  }

  /** The reading a simulation consumes at is no earlier than its permit's issue, either. */
  lemma SimulationReading(env: Env, w: World, t: nat, clock: Time)
    requires WorldInv(env, w) && t in w.threads && w.threads[t].SimulationReady?
    ensures var ready := w.threads[t];
            && ready.claims.permitID in w.store.records
            && w.store.records[ready.claims.permitID].claims.IssuedTime() <= ConsumeTime(ready.inspectedAt, clock)
  {
    hide Coherent, HistoryOK, GrantsDistinct, PermitsOK;
    assert ThreadOK(env, w, w.threads[t]);
  }

  /** Every step of every thread keeps the invariant. */
  lemma StepKeeps(env: Env, w: World, step: Step)
    requires WorldInv(env, w)
    ensures WorldInv(env, Next(env, w, step))
  {
    hide WorldInv, Extends, Coherent, Apply, Prepare, IssueStep, InspectStep, CheckStep, SpendStep, ConsumeStep,
      SendStep, ActionBinding, Unthreaded, ValidKeyID, Do, Enter, Leave, ConsumeTime, CaptureStep, SimulateStep;
    var x := Next(env, w, step);
    InvGivesCoherent(env, w);
    StepExtends(env, w, step);
    if x != w {
      match step
      case Capture(t, request, started) =>
        OccupiedCapturesNothing(w, t, request, started);
        CaptureKeeps(env, w, x, t, request, started);
      case Issue(t, terms) => IssueKeeps(env, w, x, t, terms);
      case IssueSimulation(requestID, action, origin, terms) =>
        SimulateKeeps(env, w, x, requestID, action, origin, terms);
      case InspectCall(t, call) => InspectCallKeeps(env, w, x, t, call);
      case CheckCall(t) => CheckKeeps(env, w, x, t);
      case SpendNonce(t) => SpendKeeps(env, w, x, t);
      case ConsumePermit(t, clock) => ConsumeKeeps(env, w, x, t, clock);
      case SendUpstream(t) => SendKeeps(env, w, x, t);
      case InspectSimulation(t, token, _, now) => InspectSimulationKeeps(env, w, x, t, token, now);
      case ConsumeSimulation(t, clock) =>
        SimulationReading(env, w, t, clock);
        StoreStepKeeps(env, w, x, t,
                       Op.Consume(w.threads[t].claims.permitID, ConsumeTime(w.threads[t].inspectedAt, clock)));
      case GiveUp(t) => LocalKeeps(env, w, x, t);
      case RegisterKey(_, _) => LocalKeeps(env, w, x, 0);
      case StoreStep(op) =>
        OnlyUnthreaded(op);
        StoreStepKeeps(env, w, x, 0, op);
    }
  }

  lemma OnlyUnthreaded(op: Op)
    requires Unthreaded(op)
    ensures !op.Consume? && !op.Register?
  {
  }

  lemma OccupiedCapturesNothing(w: World, t: nat, request: IssueRequest, started: Time)
    ensures t in w.threads ==> CaptureStep(w, t, request, started) == w
  {
  }

  lemma InvGivesCoherent(env: Env, w: World)
    requires WorldInv(env, w)
    ensures Coherent(w) && forall id | id in w.issued :: id in w.store.records
  {
    hide Coherent, ThreadsOK, HistoryOK, PermitsOK;
    IssuedRecorded(env, w);
  }
}
