/**
  The audit store (internal/audit/store.go): an in-memory window of the latest revision of each
  record, beside a log that is only ever appended to and replayed at start-up.  The log is a
  sequence of records; writing one either succeeds or fails, as the caller's argument says.
 */
module AuditStore {
  import opened Wrappers
  import Permits
  import Verifier

  // ---------------------------------------------------------------- records

  datatype Verdict =
    | BlockedBeforeExecution | ApprovalRequired | AuthorizedVerdict
    | PermitVerified | PermitActionMismatch | PermitExpiredVerdict | PermitReplay | PermitRevokedVerdict
    | PermitInvalidSignature | PermitClassMismatch | PermitWrongExecutor | PermitRejected
    | ObligationUnsatisfied | RedirectBlocked | BoundaryViolation | EventRejected
    | ExecutedWithValidPermit | SimulatedWithValidPermit | CompletedWithoutVerification
    | ExecutionFailed | ExecutionTerminated

  datatype Envelope = Envelope(permitID: string, state: Option<Permits.State>)

  /** A missing outcome is the empty string of the source. */
  datatype Receipt = Receipt(
    permitID: string,
    permitState: Option<Permits.State>,
    outcome: Option<Verifier.Outcome>,
    attempted: bool,
    execution: string)

  datatype AuditRecord = AuditRecord(requestID: string, envelope: Option<Envelope>, receipt: Option<Receipt>,
                                     verdict: Verdict)

  // ---------------------------------------------------------------- the window as a value

  const WINDOW := 100

  type Mutator = AuditRecord -> Option<AuditRecord>

  datatype AuditError = MissingRequestID | NoSuchRecord | MutationFailed | WriteFailed

  datatype AuditState = AuditState(records: seq<AuditRecord>, log: seq<AuditRecord>)

  datatype AuditOp =
    | Append(record: AuditRecord, writes: bool)
    | Update(record: AuditRecord, writes: bool)
    | Mutate(requestID: string, mutate: Mutator, writes: bool)

  /** The position of the last record with this request id, or -1. */
  function LastIndex(records: seq<AuditRecord>, id: string): (i: int)
    ensures -1 <= i < |records|
    ensures i >= 0 ==> records[i].requestID == id
    ensures forall k | i < k < |records| :: records[k].requestID != id
  {
    if records == [] then -1
    else if records[|records| - 1].requestID == id then |records| - 1
    else LastIndex(records[..|records| - 1], id)
  }

  function Lookup(records: seq<AuditRecord>, id: string): Option<AuditRecord> {
    var i := LastIndex(records, id);
    if i < 0 then None else Some(records[i])
  }

  function Trim(records: seq<AuditRecord>): seq<AuditRecord> {
    if |records| > WINDOW then records[|records| - WINDOW..] else records
  }

  function Replace(s: AuditState, record: AuditRecord, id: string, writes: bool): (AuditState, Option<AuditError>) {
    var i := LastIndex(s.records, id);
    if i < 0 then (s, Some(NoSuchRecord))
    else if !writes then (s, Some(WriteFailed))
    else (AuditState(s.records[i := record], s.log + [record]), None)
  }

  function ApplyAudit(s: AuditState, op: AuditOp): (AuditState, Option<AuditError>) {
    match op
    case Append(record, writes) =>
      if !writes then (s, Some(WriteFailed)) else (AuditState(Trim(s.records + [record]), s.log + [record]), None)
    case Update(record, writes) =>
      if record.requestID == "" then (s, Some(MissingRequestID)) else Replace(s, record, record.requestID, writes)
    case Mutate(id, mutate, writes) =>
      if id == "" then (s, Some(MissingRequestID))
      else match Lookup(s.records, id)
        case None => (s, Some(NoSuchRecord))
        case Some(found) =>
          match mutate(found)
          case None => (s, Some(MutationFailed))
          case Some(changed) => Replace(s, changed, id, writes)
  }

  /** One line of the log, replayed. */
  function ReplayLine(records: seq<AuditRecord>, line: AuditRecord): seq<AuditRecord> {
    var i := LastIndex(records, line.requestID);
    if line.requestID != "" && i >= 0 then records[i := line] else records + [line]
  }

  /** What a store loaded from this log holds. */
  function Replay(log: seq<AuditRecord>): seq<AuditRecord> {
    if log == [] then [] else ReplayLine(Replay(log[..|log| - 1]), log[|log| - 1])
  }

  // ---------------------------------------------------------------- the store in place

  class Store {
    var records: seq<AuditRecord>
    var log: seq<AuditRecord>

    function Value(): AuditState
      reads this
    {
      AuditState(records, log)
    }

    /** NewStore on an existing log. */
    constructor (log: seq<AuditRecord>)
      ensures this.log == log && records == Replay(log)
    {
      this.log := log;
      records := [];
      new;
      var n := 0;
      while n < |log|
        invariant 0 <= n <= |log| && this.log == log && records == Replay(log[..n])
      {
        var line := log[n];
        var index := Find(line.requestID);
        assert log[..n + 1][..n] == log[..n];
        if line.requestID != "" && index >= 0 {
          records := records[index := line];
        } else {
          records := records + [line];
        }
        n := n + 1;
      }
      assert log[..n] == log;
    }

    /** The backward scan shared by the methods below. */
    method Find(id: string) returns (index: int)
      ensures index == LastIndex(records, id)
    {
      index := |records| - 1;
      while index >= 0
        invariant -1 <= index < |records|
        invariant LastIndex(records, id) == LastIndex(records[..index + 1], id)
      {
        if records[index].requestID == id {
          return;
        }
        assert records[..index + 1][..index] == records[..index];
        index := index - 1;
      }
    }

    method AppendRecord(record: AuditRecord, writes: bool) returns (error: Option<AuditError>)
      modifies this
      ensures (Value(), error) == ApplyAudit(old(Value()), Append(record, writes))
    {
      if !writes {
        return Some(WriteFailed);
      }
      log := log + [record];
      records := records + [record];
      if |records| > WINDOW {
        records := records[|records| - WINDOW..];
      }
      return None;
    }

    method UpdateRecord(record: AuditRecord, writes: bool) returns (error: Option<AuditError>)
      modifies this
      ensures (Value(), error) == ApplyAudit(old(Value()), Update(record, writes))
    {
      if record.requestID == "" {
        return Some(MissingRequestID);
      }
      var index := Find(record.requestID);
      if index < 0 {
        return Some(NoSuchRecord);
      }
      if !writes {
        return Some(WriteFailed);
      }
      log := log + [record];
      records := records[index := record];
      return None;
    }

    method MutateRecord(id: string, mutate: Mutator, writes: bool) returns (r: Result<AuditRecord, AuditError>)
      modifies this
      ensures Value() == ApplyAudit(old(Value()), Mutate(id, mutate, writes)).0
      ensures ApplyAudit(old(Value()), Mutate(id, mutate, writes)).1 ==
              match r case Ok(_) => None case Err(e) => Some(e)
      ensures r.Ok? ==> Lookup(old(records), id).Some? && mutate(Lookup(old(records), id).value) == Some(r.value)
    {
      if id == "" {
        return Err(MissingRequestID);
      }
      var index := Find(id);
      if index < 0 {
        return Err(NoSuchRecord);
      }
      var changed := mutate(records[index]);
      if changed.None? {
        return Err(MutationFailed);
      }
      if !writes {
        return Err(WriteFailed);
      }
      log := log + [changed.value];
      records := records[index := changed.value];
      return Ok(changed.value);
    }

    method Get(id: string) returns (record: Option<AuditRecord>)
      ensures record == Lookup(records, id)
    {
      var index := Find(id);
      return if index < 0 then None else Some(records[index]);
    }

    /** The latest records, newest first. */
    method Recent(limit: int) returns (recent: seq<AuditRecord>)
      ensures |recent| == if limit <= 0 || limit > |records| then |records| else limit
      ensures forall k | 0 <= k < |recent| :: recent[k] == records[|records| - 1 - k]
    {
      var bound := if limit <= 0 || limit > |records| then |records| else limit;
      recent := [];
      var i := |records| - 1;
      while i >= |records| - bound
        invariant |records| - 1 - bound <= i < |records| && |recent| == |records| - 1 - i
        invariant forall k | 0 <= k < |recent| :: recent[k] == records[|records| - 1 - k]
      {
        recent := recent + [records[i]];
        i := i - 1;
      }
    }
  }

  // ---------------------------------------------------------------- looking up

  lemma LastIndexIs(records: seq<AuditRecord>, id: string, i: nat)
    requires i < |records| && records[i].requestID == id && forall k | i < k < |records| :: records[k].requestID != id
    ensures LastIndex(records, id) == i
  {
    var j := LastIndex(records, id);
    if j < i {
      assert false;
    }
  }

  lemma AppendLookup(records: seq<AuditRecord>, record: AuditRecord, id: string)
    ensures Lookup(records + [record], id) == if record.requestID == id then Some(record) else Lookup(records, id)
  {
    assert (records + [record])[..|records|] == records;
  }

  lemma ReplaceLookup(records: seq<AuditRecord>, i: nat, record: AuditRecord, id: string)
    requires i < |records| && i == LastIndex(records, record.requestID)
    ensures Lookup(records[i := record], id) == if record.requestID == id then Some(record) else Lookup(records, id)
  {
    var j := LastIndex(records, id);
    if record.requestID == id {
      LastIndexIs(records[i := record], id, i);
    } else if j >= 0 {
      LastIndexIs(records[i := record], id, j);
    } else {
      var changed := records[i := record];
      assert forall k | 0 <= k < |changed| :: changed[k].requestID != id;
    }
  }

  /** Trimming forgets records; it never changes what is found. */
  lemma TrimLookup(records: seq<AuditRecord>, id: string)
    ensures Lookup(Trim(records), id).None? || Lookup(Trim(records), id) == Lookup(records, id)
  {
    var i := LastIndex(Trim(records), id);
    if i >= 0 && |records| > WINDOW {
      var shift := |records| - WINDOW;
      forall k | i + shift < k < |records| ensures records[k].requestID != id {
        assert Trim(records)[k - shift] == records[k];
      }
      LastIndexIs(records, id, i + shift);
    }
  }

  lemma ReplayLookup(records: seq<AuditRecord>, line: AuditRecord, id: string)
    requires id != ""
    ensures Lookup(ReplayLine(records, line), id) == if line.requestID == id then Some(line) else Lookup(records, id)
  {
    var i := LastIndex(records, line.requestID);
    if line.requestID != "" && i >= 0 {
      ReplaceLookup(records, i, line, id);
    } else {
      AppendLookup(records, line, id);
    }
  }

  lemma ReplayAppend(log: seq<AuditRecord>, line: AuditRecord)
    ensures Replay(log + [line]) == ReplayLine(Replay(log), line)
  {
    assert (log + [line])[..|log|] == log;
  }

  // ---------------------------------------------------------------- the window refines the log

  /** A mutation leaves the request id alone, as every mutation in the router does. */
  ghost predicate KeepsID(op: AuditOp) {
    op.Mutate? ==> forall r: AuditRecord :: op.mutate(r).Some? ==> op.mutate(r).value.requestID == r.requestID
  }

  /** Whatever the live store still returns, a store reloaded from the log returns too. */
  ghost predicate Agrees(s: AuditState) {
    forall id | id != "" && Lookup(s.records, id).Some? :: Lookup(Replay(s.log), id) == Lookup(s.records, id)
  }

  ghost function AuditAfter(start: seq<AuditRecord>, ops: seq<AuditOp>, n: nat): AuditState
    requires n <= |ops|
  {
    if n == 0 then AuditState(Replay(start), start) else ApplyAudit(AuditAfter(start, ops, n - 1), ops[n - 1]).0
  }

  /** Where a mutation writes and what, if it does. */
  function Mutation(s: AuditState, op: AuditOp): (m: Option<(nat, AuditRecord)>)
    ensures m.Some? ==> m.value.0 < |s.records|
    ensures m.Some? ==> op.Mutate? && op.requestID != "" && LastIndex(s.records, op.requestID) == m.value.0
    ensures m.Some? ==> s.records[m.value.0].requestID == op.requestID
  {
    if !op.Mutate? || op.requestID == "" || !op.writes || LastIndex(s.records, op.requestID) < 0 then None
    else match op.mutate(s.records[LastIndex(s.records, op.requestID)])
      case None => None
      case Some(changed) => Some((LastIndex(s.records, op.requestID), changed))
  }

  lemma MutationWrites(s: AuditState, op: AuditOp)
    requires op.Mutate?
    ensures ApplyAudit(s, op).0 == match Mutation(s, op)
                                   case None => s
                                   case Some((i, x)) => AuditState(s.records[i := x], s.log + [x])
  {
  }

  predicate AbsentOr(found: Option<AuditRecord>, record: AuditRecord) { found.None? || found == Some(record) }

  /** A mutation that gives a record another id is safe when the window holds no other record under the old
      id that would come to light, and none under the new id that hides it. */
  predicate SafeMutation(s: AuditState, op: AuditOp) {
    match Mutation(s, op)
    case None => true
    case Some((i, x)) =>
      || x.requestID == op.requestID
      || (&& AbsentOr(Lookup(s.records[..i], op.requestID), s.records[i])
          && (x.requestID == "" || AbsentOr(Lookup(s.records[i + 1..], x.requestID), x)))
  }

  lemma {:induction false} ConcatLookup(a: seq<AuditRecord>, b: seq<AuditRecord>, id: string)
    ensures Lookup(a + b, id) == if Lookup(b, id).Some? then Lookup(b, id) else Lookup(a, id)
  {
    hide Lookup;
    if b == [] {
      assert a + b == a;
      NothingInEmpty(id);
    } else {
      var front, last := b[..|b| - 1], b[|b| - 1];
      assert a + b == (a + front) + [last] && b == front + [last];
      AppendLookup(a + front, last, id);
      AppendLookup(front, last, id);
      ConcatLookup(a, front, id);
    }
  }

  lemma NothingInEmpty(id: string)
    ensures Lookup([], id).None?
  {
  }

  /** What is found once position i holds x: a later record, else x, else an earlier one. */
  lemma PutLookup(records: seq<AuditRecord>, i: nat, x: AuditRecord, id: string)
    requires i < |records|
    ensures Lookup(records[i := x], id) ==
            if Lookup(records[i + 1..], id).Some? then Lookup(records[i + 1..], id)
            else if x.requestID == id then Some(x)
            else Lookup(records[..i], id)
  {
    hide Lookup;
    assert records[i := x] == (records[..i] + [x]) + records[i + 1..];
    ConcatLookup(records[..i] + [x], records[i + 1..], id);
    AppendLookup(records[..i], x, id);
  }

  lemma NothingLater(records: seq<AuditRecord>, id: string, i: nat)
    requires i < |records| && i == LastIndex(records, id)
    ensures Lookup(records[i + 1..], id).None? && Lookup(records, id) == Some(records[i])
  {
    assert forall r | r in records[i + 1..] :: r.requestID != id;
  }

  /** What a mutation changes for a lookup, in the window and in the reloaded list. */
  lemma MutationLookup(s: AuditState, op: AuditOp, i: nat, x: AuditRecord, id: string)
    requires Agrees(s) && Mutation(s, op) == Some((i, x)) && id != ""
    ensures var live, reloaded := Lookup(s.records[i := x], id), Lookup(Replay(s.log + [x]), id);
            && (id == x.requestID ==>
                  reloaded == Some(x) && live == if Lookup(s.records[i + 1..], id).Some?
                    then Lookup(s.records[i + 1..], id) else Some(x))
            && (id != x.requestID && id == op.requestID ==>
                  reloaded == Some(s.records[i]) && live == Lookup(s.records[..i], id))
            && (id != x.requestID && id != op.requestID ==>
                  live == Lookup(s.records, id) && reloaded == Lookup(Replay(s.log), id))
  {
    hide Lookup, Replay, ReplayLine, LastIndex, Mutation;
    NothingLater(s.records, op.requestID, i);
    ReplayAppend(s.log, x);
    ReplayLookup(Replay(s.log), x, id);
    PutLookup(s.records, i, x, id);
    PutLookup(s.records, i, s.records[i], id);
    assert s.records[i := s.records[i]] == s.records;
  }

  lemma MutationAgreesExactly(s: AuditState, op: AuditOp)
    requires Agrees(s) && op.Mutate?
    ensures Agrees(ApplyAudit(s, op).0) <==> SafeMutation(s, op)
  {
    hide Lookup, Replay, LastIndex, Mutation, ApplyAudit;
    MutationWrites(s, op);
    if Mutation(s, op).Some? {
      var (i, x) := Mutation(s, op).value;
      var t := AuditState(s.records[i := x], s.log + [x]);
      NothingLater(s.records, op.requestID, i);
      MutationLookup(s, op, i, x, op.requestID);
      if x.requestID != "" {
        MutationLookup(s, op, i, x, x.requestID);
      }
      if SafeMutation(s, op) {
        forall id | id != "" && Lookup(t.records, id).Some? ensures Lookup(Replay(t.log), id) == Lookup(t.records, id) {
          MutationLookup(s, op, i, x, id);
        }
      }
    }
  }

  /** Appending a record and replacing one under its own id keep the two in agreement. */
  lemma OpKeepsAgreement(s: AuditState, op: AuditOp)
    requires Agrees(s) && !op.Mutate?
    ensures Agrees(ApplyAudit(s, op).0)
  {
    hide Lookup, Replay, ReplayLine;
    var t := ApplyAudit(s, op).0;
    if t != s {
      var line := t.log[|s.log|];
      ReplayAppend(s.log, line);
      forall id | id != "" && Lookup(t.records, id).Some? ensures Lookup(Replay(t.log), id) == Lookup(t.records, id) {
        ReplayLookup(Replay(s.log), line, id);
        if op.Append? {
          AppendLookup(s.records, line, id);
          TrimLookup(s.records + [line], id);
        } else {
          ReplaceLookup(s.records, LastIndex(s.records, line.requestID), line, id);
        }
      }
    }
  }

  lemma LookupID(records: seq<AuditRecord>, id: string)
    ensures Lookup(records, id).Some? ==> Lookup(records, id).value.requestID == id
  {
  }

  /** From agreement, one operation leads to agreement exactly when it is no unsafe mutation. */
  lemma OpAgreesExactly(s: AuditState, op: AuditOp)
    requires Agrees(s)
    ensures Agrees(ApplyAudit(s, op).0) <==> SafeMutation(s, op)
    ensures KeepsID(op) ==> SafeMutation(s, op)
  {
    hide Agrees, Lookup;
    if op.Mutate? {
      MutationAgreesExactly(s, op);
    } else {
      OpKeepsAgreement(s, op);
    }
  }

  /** In every run, whatever its mutations do, every request id the live store still returns gets the same
      record from a store reloaded from the log, at every moment, exactly when no mutation was unsafe. */
  lemma {:induction false} LiveRefinesLog(start: seq<AuditRecord>, ops: seq<AuditOp>, n: nat)
    requires n <= |ops|
    ensures (forall m: nat | m <= n :: Agrees(AuditAfter(start, ops, m))) <==>
            (forall i | 0 <= i < n :: SafeMutation(AuditAfter(start, ops, i), ops[i]))
  {
    hide Agrees, SafeMutation, ApplyAudit;
    if n == 0 {
      AgreesAtStart(start);
    } else {
      LiveRefinesLog(start, ops, n - 1);
      if Agrees(AuditAfter(start, ops, n - 1)) {
        OpAgreesExactly(AuditAfter(start, ops, n - 1), ops[n - 1]);
      }
      AgreesSplit(start, ops, n);
    }
  }

  lemma AgreesSplit(start: seq<AuditRecord>, ops: seq<AuditOp>, n: nat)
    requires 0 < n <= |ops|
    ensures (forall m: nat | m <= n :: Agrees(AuditAfter(start, ops, m))) <==>
            && (forall m: nat | m <= n - 1 :: Agrees(AuditAfter(start, ops, m)))
            && Agrees(AuditAfter(start, ops, n))
    ensures (forall i | 0 <= i < n :: SafeMutation(AuditAfter(start, ops, i), ops[i])) <==>
            && (forall i | 0 <= i < n - 1 :: SafeMutation(AuditAfter(start, ops, i), ops[i]))
            && SafeMutation(AuditAfter(start, ops, n - 1), ops[n - 1])
  {
    hide Agrees, SafeMutation, AuditAfter;
  }

  lemma AgreesAtStart(start: seq<AuditRecord>)
    ensures Agrees(AuditState(Replay(start), start))
  {
  }

  lemma RenamingRun(first: AuditRecord, second: AuditRecord, renamed: AuditRecord, ops: seq<AuditOp>)
    requires first.requestID == second.requestID == "a"
    requires ops == [Append(first, true), Append(second, true), Mutate("a", _ => Some(renamed), true)]
    ensures AuditAfter([], ops, 3) == AuditState([first, renamed], [first, second, renamed])
  {
    hide LastIndex;
    var one, two := AuditState([first], [first]), AuditState([first, second], [first, second]);
    assert AuditAfter([], ops, 0) == AuditState([], []);
    assert ApplyAudit(AuditState([], []), ops[0]).0 == one;
    assert ApplyAudit(one, ops[1]).0 == two;
    LastIndexIs(two.records, "a", 1);
    assert ApplyAudit(two, ops[2]).0 == AuditState([first, renamed], [first, second, renamed]);
    assert AuditAfter([], ops, 2) == two;
  }

  lemma ReplayNew(records: seq<AuditRecord>, line: AuditRecord)
    requires |records| <= 1 && (records != [] ==> records[0].requestID != line.requestID)
    ensures ReplayLine(records, line) == records + [line]
  {
  }

  lemma ReplayAgain(record: AuditRecord, line: AuditRecord)
    requires record.requestID == line.requestID != ""
    ensures ReplayLine([record], line) == [line]
  {
    LastIndexIs([record], line.requestID, 0);
  }

  lemma RenamingReplay(first: AuditRecord, second: AuditRecord, renamed: AuditRecord)
    requires first.requestID == second.requestID == "a" && renamed.requestID == "b"
    ensures Replay([first, second, renamed]) == [second, renamed]
  {
    hide LastIndex, Replay;
    hide ReplayLine;
    EmptyReplay();
    ReplayAppend([], first);
    ReplayAppend([first], second);
    ReplayAppend([first, second], renamed);
    assert [] + [first] == [first] && [first] + [second] == [first, second];
    assert [first, second] + [renamed] == [first, second, renamed];
    ReplayNew([], first);
    ReplayAgain(first, second);
    ReplayNew([second], renamed);
  }

  /** A mutation that does change the request id can make the two disagree. */
  lemma ChangedIDBreaksAgreement()
    ensures exists ops: seq<AuditOp> :: |ops| == 3 && !Agrees(AuditAfter([], ops, 3))
  {
    hide LastIndex, Replay, AuditAfter;
    var first := AuditRecord("a", None, None, AuthorizedVerdict);
    var second := AuditRecord("a", None, None, ApprovalRequired);
    var renamed := AuditRecord("b", None, None, ApprovalRequired);
    var ops := [Append(first, true), Append(second, true), Mutate("a", _ => Some(renamed), true)];
    RenamingRun(first, second, renamed, ops);
    RenamingReplay(first, second, renamed);
    LastIndexIs([first, renamed], "a", 0);
    LastIndexIs([second, renamed], "a", 0);
    assert Lookup([first, renamed], "a") == Some(first) && Lookup([second, renamed], "a") == Some(second);
    assert !Agrees(AuditAfter([], ops, 3));
  }

  // ---------------------------------------------------------------- distinct request ids

  ghost predicate DistinctIDs(records: seq<AuditRecord>) {
    forall i, j | 0 <= i < j < |records| && records[i].requestID != "" :: records[i].requestID != records[j].requestID
  }

  predicate Logged(log: seq<AuditRecord>, id: string) { exists k | 0 <= k < |log| :: log[k].requestID == id }

  /** A new record's id, unless empty, has never been logged. */
  predicate FreshAppend(s: AuditState, op: AuditOp) {
    op.Append? && op.record.requestID != "" ==> !Logged(s.log, op.record.requestID)
  }

  predicate Appends(op: AuditOp) { op.Append? && op.writes }

  /** How many appends of the first n operations were written. */
  function Appended(ops: seq<AuditOp>, n: nat): nat
    requires n <= |ops|
  {
    if n == 0 then 0 else Appended(ops, n - 1) + if Appends(ops[n - 1]) then 1 else 0
  }

  ghost predicate IsSuffix(live: seq<AuditRecord>, reloaded: seq<AuditRecord>) {
    |live| <= |reloaded| && live == reloaded[|reloaded| - |live|..]
  }

  /** The reloaded list holds exactly the logged ids, each non-empty one once. */
  lemma {:induction false} ReplayedIDs(log: seq<AuditRecord>)
    ensures DistinctIDs(Replay(log))
    ensures forall id | id != "" :: LastIndex(Replay(log), id) >= 0 <==> Logged(log, id)
  {
    if log != [] {
      var before, line := log[..|log| - 1], log[|log| - 1];
      ReplayedIDs(before);
      var records := Replay(before);
      forall id | id != "" ensures LastIndex(Replay(log), id) >= 0 <==> Logged(log, id) {
        ReplayLookup(records, line, id);
        LoggedStep(before, line, id);
        assert log == before + [line];
      }
    }
  }

  lemma LoggedStep(log: seq<AuditRecord>, line: AuditRecord, id: string)
    ensures Logged(log + [line], id) <==> Logged(log, id) || line.requestID == id
  {
    var all := log + [line];
    if Logged(log, id) {
      var k :| 0 <= k < |log| && log[k].requestID == id;
      assert all[k].requestID == id;
    }
    assert all[|log|] == line;
  }

  /** Replacing a record in the window replaces the same record in the reloaded list. */
  lemma ReplaceInSuffix(live: seq<AuditRecord>, reloaded: seq<AuditRecord>, line: AuditRecord)
    requires IsSuffix(live, reloaded) && line.requestID != "" && LastIndex(live, line.requestID) >= 0
    ensures LastIndex(reloaded, line.requestID) == LastIndex(live, line.requestID) + |reloaded| - |live| >= 0
    ensures var i := LastIndex(live, line.requestID);
            IsSuffix(live[i := line], reloaded[i + |reloaded| - |live| := line])
  {
    var shift := |reloaded| - |live|;
    var i := LastIndex(live, line.requestID);
    assert live[i] == reloaded[i + shift];
    forall k | i + shift < k < |reloaded| ensures reloaded[k].requestID != line.requestID {
      assert live[k - shift] == reloaded[k];
    }
    LastIndexIs(reloaded, line.requestID, i + shift);
  }

  lemma AppendToSuffix(live: seq<AuditRecord>, reloaded: seq<AuditRecord>, line: AuditRecord)
    requires IsSuffix(live, reloaded)
    ensures IsSuffix(Trim(live + [line]), reloaded + [line])
  {
  }

  /** A record whose id was never logged is appended on replay, too. */
  lemma FreshLineReplays(s: AuditState, line: AuditRecord)
    requires line.requestID != "" ==> !Logged(s.log, line.requestID)
    ensures Replay(s.log + [line]) == Replay(s.log) + [line]
  {
    hide Replay;
    ReplayedIDs(s.log);
    ReplayAppend(s.log, line);
  }

  /** A record whose id was logged replaces the last record of that id on replay. */
  lemma KnownLineReplays(s: AuditState, line: AuditRecord) returns (j: nat)
    requires line.requestID != "" && Logged(s.log, line.requestID)
    ensures j < |Replay(s.log)| && Replay(s.log)[j].requestID == line.requestID
    ensures Replay(s.log + [line]) == Replay(s.log)[j := line]
  {
    hide Replay;
    ReplayedIDs(s.log);
    ReplayAppend(s.log, line);
    j := LastIndex(Replay(s.log), line.requestID);
  }

  /** With distinct ids, an operation keeps the window a suffix of the reloaded list, and makes the
      reloaded list longer exactly when it appends. */
  lemma OpKeepsSuffix(s: AuditState, op: AuditOp)
    requires IsSuffix(s.records, Replay(s.log)) && KeepsID(op) && FreshAppend(s, op)
    ensures var t := ApplyAudit(s, op).0;
            && IsSuffix(t.records, Replay(t.log))
            && |Replay(t.log)| == |Replay(s.log)| + (if Appends(op) then 1 else 0)
            && |t.records| == if !Appends(op) then |s.records| else if |s.records| + 1 > 100 then 100
               else |s.records| + 1
  {
    hide Replay, LastIndex, IsSuffix;
    var t := ApplyAudit(s, op).0;
    if Appends(op) {
      FreshLineReplays(s, op.record);
      AppendToSuffix(s.records, Replay(s.log), op.record);
    } else if t != s {
      var line := t.log[|s.log|];
      ReplayAppend(s.log, line);
      assert t.log == s.log + [line];
      ReplaceInSuffix(s.records, Replay(s.log), line);
    }
  }

  /** With distinct request ids, none of them changed by a mutation, the reloaded list grows by one record for
      each append. */
  lemma {:induction false} ReloadedLength(start: seq<AuditRecord>, ops: seq<AuditOp>, n: nat)
    requires n <= |ops| && forall i | 0 <= i < n :: KeepsID(ops[i]) && FreshAppend(AuditAfter(start, ops, i), ops[i])
    ensures var s := AuditAfter(start, ops, n);
            IsSuffix(s.records, Replay(s.log)) && |Replay(s.log)| == |Replay(start)| + Appended(ops, n)
  {
    hide ApplyAudit, Replay, IsSuffix;
    if n > 0 {
      ReloadedLength(start, ops, n - 1);
      OpKeepsSuffix(AuditAfter(start, ops, n - 1), ops[n - 1]);
    } else {
      WholeIsSuffix(Replay(start));
    }
  }

  /** Whatever the operations do, the window holds what it was loaded with until the first append, and from
      then on one record more for each append, up to a hundred. */
  lemma {:induction false} WindowLength(start: seq<AuditRecord>, ops: seq<AuditOp>, n: nat)
    requires n <= |ops|
    ensures var all := |Replay(start)| + Appended(ops, n);
            |AuditAfter(start, ops, n).records| == if Appended(ops, n) == 0 || all <= 100 then all else 100
  {
    hide LastIndex, Replay;
    if n > 0 {
      WindowLength(start, ops, n - 1);
    }
  }

  /** When an operation on a window that is a suffix of the reloaded list leaves it one: an append under an id
      already logged never does; a mutation that changes the id does only at the front of a window that holds
      nothing else than the new record, and only if the new id was not logged. */
  predicate SuffixSafe(s: AuditState, op: AuditOp) {
    match op
    case Append(record, writes) => writes ==> FreshAppend(s, op)
    case Update(_, _) => true
    case Mutate(id, _, _) =>
      (match Mutation(s, op)
       case None => true
       case Some((i, x)) =>
         || x.requestID == id
         || (&& i == 0 && (forall k | 0 < k < |s.records| :: s.records[k] == x)
             && (x.requestID == "" || !Logged(s.log, x.requestID))))
  }

  lemma AppendSuffixExactly(s: AuditState, op: AuditOp)
    requires IsSuffix(s.records, Replay(s.log)) && (s.records == [] ==> s.log == []) && Appends(op)
    ensures IsSuffix(ApplyAudit(s, op).0.records, Replay(ApplyAudit(s, op).0.log)) <==> FreshAppend(s, op)
  {
    hide Replay, LastIndex;
    var live, reloaded, line := s.records, Replay(s.log), op.record;
    if FreshAppend(s, op) {
      FreshLineReplays(s, line);
      AppendToSuffix(live, reloaded, line);
    } else {
      var j := KnownLineReplays(s, line);
      ReplayedIDs(s.log);
      KnownAppendIsNoSuffix(live, reloaded, line, j);
    }
  }

  lemma KnownAppendIsNoSuffix(live: seq<AuditRecord>, reloaded: seq<AuditRecord>, line: AuditRecord, j: nat)
    requires IsSuffix(live, reloaded) && live != [] && DistinctIDs(reloaded) && line.requestID != ""
    requires j < |reloaded| && reloaded[j].requestID == line.requestID
    ensures !IsSuffix(Trim(live + [line]), reloaded[j := line])
  {
    var after, whole := Trim(live + [line]), reloaded[j := line];
    LastTwo(after, whole);
    assert after[|after| - 1] == line && after[|after| - 2] == live[|live| - 1] == reloaded[|reloaded| - 1];
  }

  lemma LastTwo(live: seq<AuditRecord>, reloaded: seq<AuditRecord>)
    requires |live| >= 2
    ensures IsSuffix(live, reloaded) ==>
              && |reloaded| >= 2 && reloaded[|reloaded| - 1] == live[|live| - 1]
              && reloaded[|reloaded| - 2] == live[|live| - 2]
  {
  }

  /** A suffix of a list with distinct ids has distinct ids. */
  lemma SuffixDistinct(live: seq<AuditRecord>, reloaded: seq<AuditRecord>)
    requires IsSuffix(live, reloaded) && DistinctIDs(reloaded)
    ensures DistinctIDs(live)
  {
    var shift := |reloaded| - |live|;
    forall i, j | 0 <= i < j < |live| && live[i].requestID != "" ensures live[i].requestID != live[j].requestID {
      assert live[i] == reloaded[i + shift] && live[j] == reloaded[j + shift];
    }
  }

  lemma RenamedAsNew(live: seq<AuditRecord>, reloaded: seq<AuditRecord>, i: nat, x: AuditRecord)
    requires IsSuffix(live, reloaded) && DistinctIDs(live) && i < |live| && live[i].requestID != ""
    requires x.requestID != live[i].requestID
    ensures IsSuffix(live[i := x], reloaded + [x]) <==> i == 0 && forall k | 0 < k < |live| :: live[k] == x
  {
    hide IsSuffix, DistinctIDs;
    ShiftedSuffix(live, reloaded, live[i := x], x);
    if i == 0 {
      ShiftedOnlyIfSame(live, x);
    } else {
      NeighboursDiffer(live, i);
      assert live[i := x][i - 1] == live[i - 1] && (live[1..] + [x])[i - 1] == live[i];
    }
  }

  lemma NeighboursDiffer(live: seq<AuditRecord>, i: nat)
    requires DistinctIDs(live) && 0 < i < |live| && live[i].requestID != ""
    ensures live[i - 1] != live[i]
  {
  }

  /** After one more record, the suffix of the same length is the old one moved by one place. */
  lemma ShiftedSuffix(live: seq<AuditRecord>, reloaded: seq<AuditRecord>, after: seq<AuditRecord>, x: AuditRecord)
    requires IsSuffix(live, reloaded) && live != [] && |after| == |live|
    ensures IsSuffix(after, reloaded + [x]) <==> after == live[1..] + [x]
  {
    var whole := reloaded + [x];
    assert whole[|whole| - |after|..] == live[1..] + [x];
  }

  lemma ShiftedOnlyIfSame(live: seq<AuditRecord>, x: AuditRecord)
    requires live != []
    ensures live[0 := x] == live[1..] + [x] <==> forall k | 0 < k < |live| :: live[k] == x
  {
    if live[0 := x] == live[1..] + [x] {
      var k := |live|;
      while k > 1
        invariant 0 < k <= |live|
        invariant forall j | k <= j < |live| :: live[j] == x
      {
        k := k - 1;
        assert live[k] == (live[1..] + [x])[k];
      }
    }
  }

  lemma RenamedAsKnown(live: seq<AuditRecord>, reloaded: seq<AuditRecord>, i: nat, x: AuditRecord, j: nat)
    requires IsSuffix(live, reloaded) && i < |live| && x.requestID != live[i].requestID
    requires j < |reloaded| && reloaded[j].requestID == x.requestID
    ensures !IsSuffix(live[i := x], reloaded[j := x])
  {
    var shift := |reloaded| - |live|;
    assert live[i] == reloaded[i + shift];
    assert live[i := x][i] == x && reloaded[j := x][shift..][i] == reloaded[j := x][i + shift] == live[i];
  }

  lemma MutationSuffixExactly(s: AuditState, op: AuditOp)
    requires IsSuffix(s.records, Replay(s.log)) && op.Mutate?
    ensures IsSuffix(ApplyAudit(s, op).0.records, Replay(ApplyAudit(s, op).0.log)) <==> SuffixSafe(s, op)
  {
    hide Replay, LastIndex, IsSuffix, Mutation, DistinctIDs, Logged, ApplyAudit;
    MutationWrites(s, op);
    if Mutation(s, op).Some? {
      var (i, x) := Mutation(s, op).value;
      ReplayedIDs(s.log);
      SuffixDistinct(s.records, Replay(s.log));
      if x.requestID == op.requestID {
        ReplayAppend(s.log, x);
        ReplaceInSuffix(s.records, Replay(s.log), x);
      } else if x.requestID != "" && Logged(s.log, x.requestID) {
        var j := KnownLineReplays(s, x);
        RenamedAsKnown(s.records, Replay(s.log), i, x, j);
      } else {
        FreshLineReplays(s, x);
        RenamedAsNew(s.records, Replay(s.log), i, x);
      }
    }
  }

  lemma UpdateKeepsSuffix(s: AuditState, op: AuditOp)
    requires IsSuffix(s.records, Replay(s.log)) && op.Update?
    ensures IsSuffix(ApplyAudit(s, op).0.records, Replay(ApplyAudit(s, op).0.log))
  {
    hide Replay, LastIndex, IsSuffix;
    if ApplyAudit(s, op).0 != s {
      ReplayAppend(s.log, op.record);
      ReplaceInSuffix(s.records, Replay(s.log), op.record);
    }
  }

  lemma OpSuffixExactly(s: AuditState, op: AuditOp)
    requires IsSuffix(s.records, Replay(s.log)) && (s.records == [] ==> s.log == [])
    ensures IsSuffix(ApplyAudit(s, op).0.records, Replay(ApplyAudit(s, op).0.log)) <==> SuffixSafe(s, op)
  {
    hide Replay, LastIndex, IsSuffix, FreshAppend, Replace, Mutation;
    if op.Mutate? {
      MutationSuffixExactly(s, op);
    } else if op.Update? {
      UpdateKeepsSuffix(s, op);
    } else if op.writes {
      AppendSuffixExactly(s, op);
    }
  }

  lemma {:induction false} EmptyWindow(start: seq<AuditRecord>, ops: seq<AuditOp>, n: nat)
    requires n <= |ops|
    ensures AuditAfter(start, ops, n).records == [] ==> AuditAfter(start, ops, n).log == []
  {
    hide LastIndex;
    if n > 0 {
      EmptyWindow(start, ops, n - 1);
    }
  }

  /** In every run the live list is a suffix of the reloaded list at every moment exactly when every operation
      was safe for it: when no id was appended twice and no mutation moved a record to another id, but for the
      one case of a window with nothing else in it. */
  lemma {:induction false} LiveIsSuffix(start: seq<AuditRecord>, ops: seq<AuditOp>, n: nat)
    requires n <= |ops|
    ensures (forall m: nat | m <= n ::
             IsSuffix(AuditAfter(start, ops, m).records, Replay(AuditAfter(start, ops, m).log))) <==>
            (forall i | 0 <= i < n :: SuffixSafe(AuditAfter(start, ops, i), ops[i]))
  {
    hide IsSuffix, SuffixSafe, ApplyAudit, Replay;
    if n == 0 {
      WholeIsSuffix(Replay(start));
    } else {
      LiveIsSuffix(start, ops, n - 1);
      var s := AuditAfter(start, ops, n - 1);
      EmptyWindow(start, ops, n - 1);
      if IsSuffix(s.records, Replay(s.log)) {
        OpSuffixExactly(s, ops[n - 1]);
      }
      SuffixSplit(start, ops, n);
    }
  }

  lemma SuffixSplit(start: seq<AuditRecord>, ops: seq<AuditOp>, n: nat)
    requires 0 < n <= |ops|
    ensures (forall m: nat | m <= n ::
             IsSuffix(AuditAfter(start, ops, m).records, Replay(AuditAfter(start, ops, m).log))) <==>
            && (forall m: nat | m <= n - 1 ::
                IsSuffix(AuditAfter(start, ops, m).records, Replay(AuditAfter(start, ops, m).log)))
            && IsSuffix(AuditAfter(start, ops, n).records, Replay(AuditAfter(start, ops, n).log))
    ensures (forall i | 0 <= i < n :: SuffixSafe(AuditAfter(start, ops, i), ops[i])) <==>
            && (forall i | 0 <= i < n - 1 :: SuffixSafe(AuditAfter(start, ops, i), ops[i]))
            && SuffixSafe(AuditAfter(start, ops, n - 1), ops[n - 1])
  {
    hide IsSuffix, SuffixSafe, ApplyAudit, Replay, AuditAfter;
  }

  lemma EmptyReplay()
    ensures Replay([]) == []
  {
  }

  lemma WholeIsSuffix(records: seq<AuditRecord>)
    ensures IsSuffix(records, records)
  {
  }
}
