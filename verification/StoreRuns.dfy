/**
  What every sequence of permit-store steps keeps.  Each step holds the store's mutex, so a
  sequence of steps is any interleaving of any number of threads.
 */
module StoreRuns {
  import opened Wrappers
  import opened Permits

  // ---------------------------------------------------------------- invariant

  /** The time stamps of a record say exactly which state it is in. */
  predicate StampsMatch(r: Record) {
    && (r.consumedAt.Some? <==> r.state == Consumed)
    && (r.expiredAt.Some? <==> r.state == Expired)
    && (r.revokedAt.Some? <==> r.state == Revoked)
    && (r.state == Consumed ==> r.consumedAt.value < r.claims.ExpiresTime() || r.consumedAt.value == ZERO_TIME)
    && (r.state == Expired ==> r.expiredAt.value == r.claims.ExpiresTime())
  }

  predicate RecordOK(s: Store, id: string, r: Record) {
    && r.claims.permitID == id && ValidClaims(r.claims)
    && StampsMatch(r)
    && (r.state == Issued ==> AuthorityHolds(s, r.claims))
  }

  /** Every outstanding permit is bound to an authority that is enabled at its very epoch. */
  ghost predicate Inv(s: Store) {
    && (forall id | id in s.records :: RecordOK(s, id, s.records[id]))
    && (forall key | key in s.authorities :: 1 < s.authorities[key].epoch <= MAX_UINT64)
  }

  lemma ExpireKeeps(s: Store, id: string, now: Time)
    requires Inv(s) && id in s.records
    ensures RecordOK(s, id, ExpireIfNeeded(s.records[id], now))
    ensures RecordEvolves(s.records[id], ExpireIfNeeded(s.records[id], now))
  {
  }

  lemma PutKeeps(s: Store, id: string, r: Record)
    requires Inv(s) && RecordOK(s, id, r)
    ensures Inv(Put(s, id, r))
  {
    hide ValidClaims;
    var t := Put(s, id, r);
    forall k | k in t.records ensures RecordOK(t, k, t.records[k]) {
      assert RecordOK(s, k, t.records[k]);
    }
  }

  lemma BoundPermitIsExecution(c: Claims)
    requires ValidClaims(c) && c.executionBinding != ""
    ensures c.permitClass == Execution
  {
  }

  /** Only execution permits are bound to an authority, so the bulk revocation reaches every permit whose
      epoch the transition leaves behind. */
  lemma BulkRevocationKeeps(s: Store, key: AuthorityKey, enabled: bool, now: Time)
    requires Inv(s)
    ensures Inv(ApplySetAuthority(s, key, enabled, now).0)
  {
    hide ValidClaims, ValidAuthorityKey;
    var t := ApplySetAuthority(s, key, enabled, now).0;
    if t != s {
      forall id | id in t.records ensures RecordOK(t, id, t.records[id]) {
        assert RecordOK(s, id, s.records[id]);
        if s.records[id].claims.executionBinding != "" {
          BoundPermitIsExecution(s.records[id].claims);
        }
      }
    }
  }

  /** The invariant holds initially and after every step. */
  lemma ApplyKeepsInv(s: Store, op: Op)
    requires Inv(s)
    ensures Inv(Apply(s, op).0)
  {
    hide ValidClaims;
    match op
    case Register(c) =>
      if Apply(s, op).1 == Registered {
        PutKeeps(s, c.permitID, Record(c, Issued, None, None, None));
      }
    case Get(id, now) =>
      if id in s.records {
        ExpireKeeps(s, id, now);
        PutKeeps(s, id, ExpireIfNeeded(s.records[id], now));
      }
    case List(now) =>
      var t := Apply(s, op).0;
      forall id | id in t.records ensures RecordOK(t, id, t.records[id]) {
        ExpireKeeps(s, id, now);
      }
    case Consume(id, now) =>
      if id in s.records {
        ExpireKeeps(s, id, now);
        var t := Apply(s, op).0;
        PutKeeps(s, id, t.records[id]);
      }
    case Revoke(id, now) =>
      if id in s.records {
        ExpireKeeps(s, id, now);
        PutKeeps(s, id, Apply(s, op).0.records[id]);
      }
    case SetAuthority(key, enabled, now) => BulkRevocationKeeps(s, key, enabled, now);
    case ReadAuthority(_) =>
  }

  // ---------------------------------------------------------------- evolution

  /** Claims never change, and a record that has left Issued never changes at all. */
  predicate RecordEvolves(r: Record, r': Record) {
    r'.claims == r.claims && (r.state != Issued ==> r' == r)
  }

  /** Epochs never fall, and an authority with the same epoch is the same authority. */
  predicate AuthorityEvolves(a: AuthorityState, a': AuthorityState) {
    a.epoch <= a'.epoch && (a.epoch == a'.epoch ==> a == a')
  }

  ghost predicate Evolves(s: Store, t: Store) {
    && (forall id | id in s.records :: id in t.records && RecordEvolves(s.records[id], t.records[id]))
    && (forall key :: AuthorityEvolves(AuthorityOf(s, key), AuthorityOf(t, key)))
  }

  lemma ApplyEvolves(s: Store, op: Op)
    requires Inv(s)
    ensures Evolves(s, Apply(s, op).0)
  {
    hide ValidClaims;
    var t := Apply(s, op).0;
    forall id | id in s.records ensures id in t.records && RecordEvolves(s.records[id], t.records[id]) {
    }
  }

  lemma RecordStays(s: Store, t: Store, id: string)
    requires Evolves(s, t) && id in s.records && s.records[id].state != Issued
    ensures id in t.records && t.records[id] == s.records[id]
  {
    assert RecordEvolves(s.records[id], t.records[id]);
  }

  lemma EvolvesTransitive(s: Store, t: Store, u: Store)
    requires Evolves(s, t) && Evolves(t, u)
    ensures Evolves(s, u)
  {
    forall key ensures AuthorityEvolves(AuthorityOf(s, key), AuthorityOf(u, key)) {
      assert AuthorityEvolves(AuthorityOf(s, key), AuthorityOf(t, key));
      assert AuthorityEvolves(AuthorityOf(t, key), AuthorityOf(u, key));
    }
    forall id | id in s.records ensures id in u.records && RecordEvolves(s.records[id], u.records[id]) {
      assert RecordEvolves(s.records[id], t.records[id]) && RecordEvolves(t.records[id], u.records[id]);
    }
  }

  // ---------------------------------------------------------------- who consumes, and when

  /** Nothing but Consume consumes. */
  lemma ConsumesOnlyByConsume(s: Store, op: Op, id: string)
    requires id in s.records && s.records[id].state != Consumed
    requires id in Apply(s, op).0.records && Apply(s, op).0.records[id].state == Consumed
    ensures op.Consume? && op.id == id
  {
    hide ValidClaims, AuthorityHolds, ValidAuthorityKey;
  }

  /** A consumed permit was consumed no earlier than its issue and before its expiry. */
  predicate ConsumedInLifetime(r: Record) {
    r.state == Consumed ==>
      r.consumedAt.Some? && r.claims.IssuedTime() <= r.consumedAt.value < r.claims.ExpiresTime()
  }

  /** A step that consumes at a reading no earlier than the permit's issue consumes inside its lifetime:
      such a reading is never the zero time that would skip the expiry test. */
  lemma OpKeepsConsumedInLifetime(s: Store, op: Op, id: string)
    requires Inv(s) && id in s.records && ConsumedInLifetime(s.records[id])
    requires op.Consume? && op.id == id ==> s.records[id].claims.IssuedTime() <= op.now
    ensures id in Apply(s, op).0.records && ConsumedInLifetime(Apply(s, op).0.records[id])
  {
    hide ValidClaims, AuthorityHolds, Inv, ValidAuthorityKey;
    RecordAtEachStep(s, op, id);
    IssuedAfterZeroTime(s.records[id].claims);
    if s.records[id].state != Consumed && Apply(s, op).0.records[id].state == Consumed {
      ConsumesOnlyByConsume(s, op, id);
    }
  }

  lemma RecordAtEachStep(s: Store, op: Op, id: string)
    requires Inv(s) && id in s.records
    ensures RecordOK(s, id, s.records[id])
    ensures id in Apply(s, op).0.records && RecordEvolves(s.records[id], Apply(s, op).0.records[id])
  {
    hide Apply, RecordOK, RecordEvolves;
    ApplyEvolves(s, op);
  }

  lemma IssuedAfterZeroTime(c: Claims)
    requires ValidClaims(c)
    ensures c.IssuedTime() > ZERO_TIME
  {
  }

  // ---------------------------------------------------------------- runs

  /** The store after the first n of the given steps. */
  ghost function After(ops: seq<Op>, n: nat): Store
    requires n <= |ops|
  {
    if n == 0 then EMPTY_STORE else Apply(After(ops, n - 1), ops[n - 1]).0
  }

  ghost function ResponseTo(ops: seq<Op>, i: nat): Response
    requires i < |ops|
  {
    Apply(After(ops, i), ops[i]).1
  }

  lemma {:induction false} RunInv(ops: seq<Op>, n: nat)
    requires n <= |ops|
    ensures Inv(After(ops, n))
  {
    hide ValidClaims, AuthorityHolds, ValidAuthorityKey, Apply;
    if n > 0 {
      RunInv(ops, n - 1);
      ApplyKeepsInv(After(ops, n - 1), ops[n - 1]);
    }
  }

  lemma {:induction false} RunEvolves(ops: seq<Op>, i: nat, j: nat)
    requires i <= j <= |ops|
    ensures Evolves(After(ops, i), After(ops, j))
    decreases j
  {
    if i < j {
      RunEvolves(ops, i, j - 1);
      RunInv(ops, j - 1);
      ApplyEvolves(After(ops, j - 1), ops[j - 1]);
      EvolvesTransitive(After(ops, i), After(ops, j - 1), After(ops, j));
    }
  }

  /** What happened in the first n steps does not depend on the steps after them. */
  lemma {:induction false} AfterPrefix(ops: seq<Op>, longer: seq<Op>, n: nat)
    requires n <= |ops| && ops <= longer
    ensures After(longer, n) == After(ops, n)
  {
    if n > 0 {
      AfterPrefix(ops, longer, n - 1);
      assert longer[n - 1] == ops[n - 1];
    }
  }

  predicate ConsumesAt(ops: seq<Op>, i: nat, id: string) {
    i < |ops| && ops[i].Consume? && ops[i].id == id
  }

  ghost predicate SucceedsAt(ops: seq<Op>, i: nat, id: string) {
    ConsumesAt(ops, i, id) && ResponseTo(ops, i).ConsumeResult? && ResponseTo(ops, i).outcome == Succeeded
  }

  /** In every interleaving at most one Consume of a permit succeeds. */
  lemma ConsumeSucceedsOnce(ops: seq<Op>, i: nat, j: nat, id: string)
    requires SucceedsAt(ops, i, id) && SucceedsAt(ops, j, id)
    ensures i == j
  {
    hide ValidClaims, AuthorityHolds;
    if i < j {
      assert After(ops, i + 1).records[id].state == Consumed;
      RunEvolves(ops, i + 1, j);
    } else if j < i {
      assert After(ops, j + 1).records[id].state == Consumed;
      RunEvolves(ops, j + 1, i);
    }
  }

  /** The claims of a permit are those it was registered with, and a permit that is consumed,
      expired or revoked stays exactly as it is. */
  lemma TerminalForever(ops: seq<Op>, i: nat, j: nat, id: string)
    requires i <= j <= |ops| && id in After(ops, i).records
    ensures id in After(ops, j).records
    ensures After(ops, j).records[id].claims == After(ops, i).records[id].claims
    ensures After(ops, i).records[id].state != Issued ==> After(ops, j).records[id] == After(ops, i).records[id]
  {
    RunEvolves(ops, i, j);
  }

  /** A permit consumed at a non-zero clock reading was consumed before its expiry, is never
      consumed after an authority change, and the authority check inside Consume never fires. */
  lemma ConsumeInTime(ops: seq<Op>, i: nat, id: string)
    requires ConsumesAt(ops, i, id)
    ensures var s := After(ops, i);
            id in s.records && ExpireIfNeeded(s.records[id], ops[i].now).state == Issued ==>
              && AuthorityHolds(s, s.records[id].claims)
              && SucceedsAt(ops, i, id)
              && (ops[i].now != ZERO_TIME ==> ops[i].now < s.records[id].claims.ExpiresTime())
  {
    hide ValidClaims, ValidAuthorityKey, AuthorityHolds, Inv, After;
    RunInv(ops, i);
    if id in After(ops, i).records {
      RecordAtEachStep(After(ops, i), ops[i], id);
      if ExpireIfNeeded(After(ops, i).records[id], ops[i].now).state == Issued {
        ConsumeOutstanding(After(ops, i), id, ops[i].now);
      }
    }
  }

  lemma ConsumeOutstanding(s: Store, id: string, now: Time)
    requires id in s.records && RecordOK(s, id, s.records[id]) && ExpireIfNeeded(s.records[id], now).state == Issued
    ensures AuthorityHolds(s, s.records[id].claims)
    ensures Apply(s, Op.Consume(id, now)).1.ConsumeResult? && Apply(s, Op.Consume(id, now)).1.outcome == Succeeded
    ensures now != ZERO_TIME ==> now < s.records[id].claims.ExpiresTime()
  {
    hide ValidClaims, ValidAuthorityKey, AuthorityHolds;
  }

  ghost predicate CapturesAt(ops: seq<Op>, i: nat, key: AuthorityKey, captured: AuthorityState) {
    i < |ops| && ops[i] == ReadAuthority(key) && ResponseTo(ops, i) == Authority(captured)
  }

  ghost predicate RegistersAt(ops: seq<Op>, j: nat, c: Claims) {
    j < |ops| && ops[j] == Register(c) && ResponseTo(ops, j) == Registered
  }

  /** If a permit registers with the epoch captured before policy evaluation, its authority was
      enabled at that epoch in every state in between. */
  lemma AuthorityStableDuringIssue(ops: seq<Op>, i: nat, j: nat, c: Claims, captured: AuthorityState, k: nat)
    requires CapturesAt(ops, i, c.Domain(), captured) && RegistersAt(ops, j, c) && i <= k <= j
    requires c.executionBinding != "" && c.authorityEpoch == captured.epoch
    ensures AuthorityOf(After(ops, k), c.Domain()) == captured == AuthorityState(c.authorityEpoch, true)
  {
    hide ValidClaims, Evolves;
    RunEvolves(ops, i, k);
    RunEvolves(ops, k, j);
    AuthorityBetween(After(ops, i), After(ops, k), After(ops, j), c.Domain());
  }

  lemma AuthorityBetween(s: Store, t: Store, u: Store, key: AuthorityKey)
    requires Evolves(s, t) && Evolves(t, u) && AuthorityOf(s, key).epoch == AuthorityOf(u, key).epoch
    ensures AuthorityOf(t, key) == AuthorityOf(u, key) == AuthorityOf(s, key)
  {
    assert AuthorityEvolves(AuthorityOf(s, key), AuthorityOf(t, key));
    assert AuthorityEvolves(AuthorityOf(t, key), AuthorityOf(u, key));
  }

  /** The flags of the accepted transitions of one authority among the first n steps, in order. */
  ghost function Transitions(ops: seq<Op>, n: nat, key: AuthorityKey): seq<bool>
    requires n <= |ops|
  {
    if n == 0 then []
    else if ops[n - 1].SetAuthority? && ops[n - 1].key == key && ResponseTo(ops, n - 1).Authority?
    then Transitions(ops, n - 1, key) + [ops[n - 1].enabled]
    else Transitions(ops, n - 1, key)
  }

  /** In every interleaving an authority's epoch counts its accepted transitions from 1, and it is enabled
      as the last of them said, or because there was none. */
  lemma {:induction false} AuthorityIsItsTransitions(ops: seq<Op>, n: nat, key: AuthorityKey)
    requires n <= |ops|
    ensures var flags := Transitions(ops, n, key);
            && AuthorityOf(After(ops, n), key) == AuthorityState(1 + |flags|, flags == [] || flags[|flags| - 1])
            && (n < |ops| && ops[n] == ReadAuthority(key) ==>
                  ResponseTo(ops, n) == Authority(AuthorityState(1 + |flags|, flags == [] || flags[|flags| - 1])))
  {
    hide ValidClaims, ValidAuthorityKey, AuthorityHolds;
    if n > 0 {
      AuthorityIsItsTransitions(ops, n - 1, key);
      TransitionsOnly(After(ops, n - 1), ops[n - 1], key);
    }
  }

  lemma TransitionsOnly(s: Store, op: Op, key: AuthorityKey)
    ensures AuthorityOf(Apply(s, op).0, key) ==
            if op.SetAuthority? && op.key == key && Apply(s, op).1.Authority?
            then AuthorityState(AuthorityOf(s, key).epoch + 1, op.enabled)
            else AuthorityOf(s, key)
  {
    hide ValidClaims, ValidAuthorityKey, AuthorityHolds;
  }

  /** Every accepted transition raises the epoch, so an epoch once left is never current again. */
  lemma EpochsNeverReused(ops: seq<Op>, i: nat, j: nat)
    requires i < j <= |ops| && ops[i].SetAuthority? && ResponseTo(ops, i).Authority?
    ensures AuthorityOf(After(ops, j), ops[i].key).epoch > AuthorityOf(After(ops, i), ops[i].key).epoch
  {
    RunEvolves(ops, i + 1, j);
    var key := ops[i].key;
    assert AuthorityEvolves(AuthorityOf(After(ops, i + 1), key), AuthorityOf(After(ops, j), key));
  }

  /** A transition ends every outstanding permit of its authority, and no later step, including
      re-enabling, brings one back. */
  lemma RevocationIsFinal(ops: seq<Op>, i: nat, j: nat, id: string)
    requires i < j <= |ops| && ops[i].SetAuthority? && ResponseTo(ops, i).Authority?
    requires id in After(ops, i).records && Outstanding(After(ops, i).records[id], ops[i].key)
    ensures id in After(ops, j).records && After(ops, j).records[id].state == State.Revoked
    ensures After(ops, j).records[id].revokedAt == Some(ops[i].now)
  {
    hide ValidClaims, ValidAuthorityKey, AuthorityHolds, Evolves;
    assert After(ops, i + 1).records[id].state == State.Revoked;
    RunEvolves(ops, i + 1, j);
    RecordStays(After(ops, i + 1), After(ops, j), id);
  }
}
