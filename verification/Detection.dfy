/**
  Session correlation (internal/detection/engine.go): a window of the last 128 events of a session,
  a cumulative risk, and the routes the engine recommends.
 */
module Detection {
  import opened Wrappers

  datatype InputSource = InputSource(kind: string, trust: string, riskSignals: seq<string>)

  datatype DataAccess = DataAccess(guarded: bool, operation: string)

  datatype Request = Request(
    sessionID: string,
    requestID: string,
    parentID: string,
    capability: string,
    sideEffect: string,
    external: bool,
    dataAccess: Option<DataAccess>,
    inputs: seq<InputSource>,
    expectedSchema: string,
    schema: string)

  datatype Controls = Controls(readBudget: int, riskLimit: int, egress: seq<string>, sideEffects: seq<string>,
                               signals: seq<string>)

  datatype Route = NoRoute | Allow | Restrict | Sandbox | Escalate | Deny

  datatype Finding = SensitiveRead | PromptInjection | SchemaDrift | Exfiltration | PoisonedChain | PrivacyBudget
    | RiskLimit

  datatype Summary = Summary(parentID: string, sensitiveRead: bool, poisoned: bool)

  datatype Session = Session(events: map<string, Summary>, order: seq<string>, risk: int, readCount: nat)

  const NEW_SESSION := Session(map[], [], 0, 0)

  datatype Result = Result(findings: seq<Finding>, route: Route, delta: int, ancestors: seq<string>, risk: int,
                           budgetLeft: int)

  const WINDOW := 128
  const RECENT := 12
  const MAX_ANCESTORS := 16

  // ---------------------------------------------------------------- what a request looks like

  /** unicode.ToLower, as far as it leads to an ASCII letter. */
  function Lower(c: char): char {
    if 'A' <= c <= 'Z' then (c as int + 32) as char
    else if c == '\U{130}' then 'i' else if c == '\U{212A}' then 'k' else c
  }

  predicate EqualsLower(s: string, word: string) {
    |s| == |word| && forall i | 0 <= i < |s| :: Lower(s[i]) == word[i]
  }

  predicate IsSensitiveRead(r: Request) {
    r.dataAccess.Some? && r.dataAccess.value.guarded
    && (EqualsLower(r.dataAccess.value.operation, "open") || EqualsLower(r.dataAccess.value.operation, "read"))
  }

  /** Retrieved content of no trust that carries a signal of injected instructions. */
  predicate IsPoisonedSource(c: Controls, source: InputSource) {
    && source.kind == "retrieval" && source.trust in ["untrusted", "external"]
    && exists signal | signal in source.riskSignals :: signal in c.signals
  }

  predicate IsPoisoned(c: Controls, r: Request) {
    exists source | source in r.inputs :: IsPoisonedSource(c, source)
  }

  predicate IsProtectedSource(source: InputSource) {
    source.kind in ["protected_read", "protected_data"] && source.trust != "untrusted"
  }

  predicate ReadsProtectedInput(r: Request) { exists source | source in r.inputs :: IsProtectedSource(source) }

  predicate IsEgress(c: Controls, r: Request) { r.external || r.capability in c.egress }

  predicate HasSideEffect(c: Controls, r: Request) {
    IsEgress(c, r) || r.capability in c.sideEffects
      || (r.sideEffect != "" && r.sideEffect != "none" && r.sideEffect != "read_only")
  }

  predicate SchemaMismatch(r: Request) { r.expectedSchema != "" && r.expectedSchema != r.schema }

  function Rank(r: Route): nat {
    match r case NoRoute => 0 case Allow => 1 case Restrict => 2 case Sandbox => 3 case Escalate => 4 case Deny => 5
  }

  function Stronger(current: Route, candidate: Route): Route {
    if Rank(candidate) > Rank(current) then candidate else current
  }

  function Clamp(n: int, low: int, high: int): int { if n < low then low else if n > high then high else n }

  /** Go's division, toward zero. */
  function Quarter(n: int): int { if n < 0 then -(-n / 4) else n / 4 }

  function Recent(order: seq<string>): seq<string> {
    if |order| <= RECENT then order else order[|order| - RECENT..]
  }

  // ---------------------------------------------------------------- causal ancestors

  function Ancestors(events: map<string, Summary>, parentID: string, found: seq<string>): seq<string>
    requires |found| <= MAX_ANCESTORS
    decreases MAX_ANCESTORS - |found|
  {
    if parentID == "" || parentID in found || |found| == MAX_ANCESTORS then found
    else if parentID !in events then found + [parentID]
    else Ancestors(events, events[parentID].parentID, found + [parentID])
  }

  predicate HasParent(events: map<string, Summary>, id: string, parentID: string) {
    id in events && parentID == events[id].parentID
  }

  /** From the parent upwards, each the parent of the one before, none twice and at most sixteen. */
  ghost predicate WalksUp(events: map<string, Summary>, parent: string, a: seq<string>) {
    && |a| <= 16 && (a != [] ==> a[0] == parent)
    && (forall i | 0 <= i < |a| :: a[i] != "")
    && (forall i, j | 0 <= i < j < |a| :: a[i] != a[j])
    && (forall i, j | 0 <= i < j < |a| && j == i + 1 :: HasParent(events, a[i], a[j]))
  }

  /** Where a walk goes on from here, if it can. */
  function NextUp(events: map<string, Summary>, parent: string, a: seq<string>): string {
    if a == [] then parent else if a[|a| - 1] in events then events[a[|a| - 1]].parentID else ""
  }

  /** Nothing is left to walk to. */
  predicate Stops(events: map<string, Summary>, parent: string, a: seq<string>) {
    |a| == 16 || NextUp(events, parent, a) == "" || NextUp(events, parent, a) in a
  }

  method CausalAncestors(events: map<string, Summary>, parent: string) returns (ancestors: seq<string>)
    ensures ancestors == Ancestors(events, parent, [])
    ensures WalksUp(events, parent, ancestors) && Stops(events, parent, ancestors)
  {
    hide WalksUp, Ancestors;
    NoWalk(events, parent);
    ancestors := [];
    var parentID := parent;
    while parentID != "" && parentID !in ancestors && |ancestors| < MAX_ANCESTORS
      invariant WalksUp(events, parent, ancestors) && |ancestors| <= 16
      invariant parentID == NextUp(events, parent, ancestors)
      decreases MAX_ANCESTORS - |ancestors|
    {
      OneUp(events, parent, ancestors);
      ancestors := ancestors + [parentID];
      if parentID !in events {
        break;
      }
      parentID := events[parentID].parentID;
    }
    AncestorsExact(events, parent, ancestors);
  }

  lemma OneUp(events: map<string, Summary>, parent: string, a: seq<string>)
    requires WalksUp(events, parent, a) && !Stops(events, parent, a)
    ensures WalksUp(events, parent, a + [NextUp(events, parent, a)])
  {
    var b := a + [NextUp(events, parent, a)];
    forall i, j | 0 <= i < j < |b| && j == i + 1 ensures HasParent(events, b[i], b[j]) {
      assert b[i] == a[i] && (j < |a| ==> b[j] == a[j]);
      assert j < |a| ==> HasParent(events, a[i], a[j]);
    }
  }

  lemma {:induction false} WalkStops(events: map<string, Summary>, parent: string, found: seq<string>)
    requires WalksUp(events, parent, found)
    ensures var a := Ancestors(events, NextUp(events, parent, found), found);
            WalksUp(events, parent, a) && Stops(events, parent, a)
    decreases 16 - |found|
  {
    var next := NextUp(events, parent, found);
    if !Stops(events, parent, found) {
      var more := found + [next];
      OneUp(events, parent, found);
      if next in events {
        WalkStops(events, parent, more);
      }
    }
  }

  lemma {:induction false} WalksAgree(events: map<string, Summary>, parent: string, a: seq<string>, b: seq<string>,
                                      n: nat)
    requires WalksUp(events, parent, a) && WalksUp(events, parent, b) && n <= |a| && n <= |b|
    ensures a[..n] == b[..n]
  {
    if n > 0 {
      WalksAgree(events, parent, a, b, n - 1);
      assert a[n - 1] == b[n - 1] by {
        if n > 1 {
          assert a[..n - 1][n - 2] == b[..n - 1][n - 2];
        }
      }
      assert a[..n] == a[..n - 1] + [a[n - 1]] && b[..n] == b[..n - 1] + [b[n - 1]];
    }
  }

  lemma GoesOn(events: map<string, Summary>, parent: string, a: seq<string>, b: seq<string>)
    requires WalksUp(events, parent, a) && WalksUp(events, parent, b) && |a| < |b|
    ensures !Stops(events, parent, a)
  {
    WalksAgree(events, parent, a, b, |a|);
    forall i | 0 <= i < |a| ensures a[i] == b[i] {
      assert a[i] == b[..|a|][i];
    }
    assert b[|a|] == NextUp(events, parent, a);
  }

  /** The ancestors are the one walk that goes up as far as it can. */
  lemma AncestorsExact(events: map<string, Summary>, parent: string, a: seq<string>)
    ensures a == Ancestors(events, parent, []) <==> WalksUp(events, parent, a) && Stops(events, parent, a)
  {
    hide WalksUp, Stops;
    assert WalksUp(events, parent, []) by { NoWalk(events, parent); }
    WalkStops(events, parent, []);
    var b := Ancestors(events, parent, []);
    if WalksUp(events, parent, a) && Stops(events, parent, a) {
      if |a| < |b| {
        GoesOn(events, parent, a, b);
      } else if |b| < |a| {
        GoesOn(events, parent, b, a);
      }
      WalksAgree(events, parent, a, b, |a|);
      assert a == a[..|a|] && b == b[..|b|];
    }
  }

  lemma NoWalk(events: map<string, Summary>, parent: string)
    ensures WalksUp(events, parent, [])
  {
  }

  // ---------------------------------------------------------------- one evaluation

  datatype Mark = SensitiveMark | PoisonMark

  predicate Has(e: Summary, mark: Mark) { if mark == PoisonMark then e.poisoned else e.sensitiveRead }

  /** An earlier event among the candidates, other than this request, of which the given mark is true. */
  predicate Preceded(events: map<string, Summary>, candidates: seq<string>, self: string, mark: Mark) {
    exists id | id in candidates :: id != self && id in events && Has(events[id], mark)
  }

  datatype Signals = Signals(findings: seq<Finding>, route: Route, delta: int)
  {
    function Add(condition: bool, finding: Finding, candidate: Route, points: int): Signals {
      if condition then Signals(findings + [finding], Stronger(route, candidate), delta + points) else this
    }
  }

  function Candidates(s: Session, parentID: string): seq<string> {
    var ancestors := Ancestors(s.events, parentID, []);
    if ancestors == [] then Recent(s.order) else ancestors
  }

  /** The signals of one request, in the engine's order, given the sensitive reads counted so far. */
  function RequestSignals(c: Controls, s: Session, r: Request, readCount: nat): Signals {
    var candidates := Candidates(s, r.parentID);
    var exfiltrates := IsEgress(c, r)
      && (ReadsProtectedInput(r) || Preceded(s.events, candidates, r.requestID, SensitiveMark));
    var chained := HasSideEffect(c, r) && Preceded(s.events, candidates, r.requestID, PoisonMark);
    Signals([], NoRoute, 0)
      .Add(IsSensitiveRead(r), SensitiveRead, NoRoute, 10)
      .Add(IsPoisoned(c, r), PromptInjection,
           if HasSideEffect(c, r) then Deny else Sandbox, if HasSideEffect(c, r) then 60 else 35)
      .Add(SchemaMismatch(r), SchemaDrift, Deny, 50)
      .Add(exfiltrates, Exfiltration, Deny, 50)
      .Add(chained, PoisonedChain, Deny, 45)
      .Add(readCount > c.readBudget, PrivacyBudget, Escalate, 30)
  }

  function RiskAfter(risk: int, baseRisk: int, delta: int): int {
    var contribution := Quarter(baseRisk) + delta;
    Clamp(risk + (if contribution < 1 then 1 else contribution), 0, 100)
  }

  function Remember(c: Controls, s: Session, r: Request, risk: int, readCount: nat): Session {
    var events := s.events[r.requestID := Summary(r.parentID, IsSensitiveRead(r), IsPoisoned(c, r))];
    var order := s.order + [r.requestID];
    if |order| > WINDOW then Session(events - {order[0]}, order[1..], risk, readCount)
    else Session(events, order, risk, readCount)
  }

  function EvaluateSession(c: Controls, s: Session, r: Request, baseRisk: int): (Session, Result) {
    var readCount := s.readCount + if IsSensitiveRead(r) then 1 else 0;
    var signals := RequestSignals(c, s, r, readCount);
    var risk := RiskAfter(s.risk, baseRisk, signals.delta);
    var final := signals.Add(risk >= c.riskLimit && signals.route != Deny, RiskLimit, Escalate, 0);
    (Remember(c, s, r, risk, readCount),
     Result(final.findings, final.route, final.delta, Ancestors(s.events, r.parentID, []), risk,
            if c.readBudget < readCount then 0 else c.readBudget - readCount))
  }

  // ---------------------------------------------------------------- what an evaluation reports

  /** The word in any mixture of cases; the dotted capital I and the Kelvin sign are i and k in lower case. */
  predicate Spells(s: string, word: string) {
    && |s| == |word|
    && forall i | 0 <= i < |s| ::
         || s[i] == word[i]
         || ('a' <= word[i] <= 'z' && s[i] as int + 32 == word[i] as int)
         || (s[i] == '\U{130}' && word[i] == 'i') || (s[i] == '\U{212A}' && word[i] == 'k')
  }

  predicate LowerCase(word: string) { forall i | 0 <= i < |word| :: 'a' <= word[i] <= 'z' }

  lemma SpellsExact(s: string, word: string)
    requires LowerCase(word)
    ensures EqualsLower(s, word) <==> Spells(s, word)
  {
  }

  /** A guarded access that opens or reads. */
  predicate Peeks(r: Request) {
    && r.dataAccess.Some? && r.dataAccess.value.guarded
    && (Spells(r.dataAccess.value.operation, "open") || Spells(r.dataAccess.value.operation, "read"))
  }

  /** An action that crosses the boundary, and one that leaves something behind. */
  predicate Crosses(c: Controls, r: Request) { r.external || r.capability in c.egress }

  predicate Acts(c: Controls, r: Request) {
    Crosses(c, r) || r.capability in c.sideEffects || r.sideEffect !in ["", "none", "read_only"]
  }

  lemma ActsExact(c: Controls, r: Request)
    ensures IsSensitiveRead(r) <==> Peeks(r)
    ensures IsEgress(c, r) <==> Crosses(c, r)
    ensures HasSideEffect(c, r) <==> Acts(c, r)
  {
    if r.dataAccess.Some? {
      SpellsExact(r.dataAccess.value.operation, "open");
      SpellsExact(r.dataAccess.value.operation, "read");
    }
  }

  /** An earlier event among a request's ancestors, or among the last twelve of its session when it has no parent, bears
      the mark. */
  predicate Follows(s: Session, r: Request, mark: Mark) {
    var ancestors := Ancestors(s.events, r.parentID, []);
    var earlier := if r.parentID != "" then ancestors
                   else if |s.order| <= 12 then s.order else s.order[|s.order| - 12..];
    exists id | id in earlier ::
      && id != r.requestID && id in s.events
      && if mark == PoisonMark then s.events[id].poisoned else s.events[id].sensitiveRead
  }

  /** What leads to each finding but the last, which depends on the risk. */
  predicate Raises(c: Controls, s: Session, r: Request, readCount: nat, f: Finding) {
    match f
    case SensitiveRead => Peeks(r)
    case PromptInjection => IsPoisoned(c, r)
    case SchemaDrift => r.expectedSchema != "" && r.schema != r.expectedSchema
    case Exfiltration => Crosses(c, r) && (ReadsProtectedInput(r) || Follows(s, r, SensitiveMark))
    case PoisonedChain => Acts(c, r) && Follows(s, r, PoisonMark)
    case PrivacyBudget => readCount > c.readBudget
    case RiskLimit => false
  }

  lemma FollowsExact(s: Session, r: Request, mark: Mark)
    ensures Preceded(s.events, Candidates(s, r.parentID), r.requestID, mark) <==> Follows(s, r, mark)
  {
    AncestorsExact(s.events, r.parentID, []);
  }

  function Points(raised: bool, points: int): int { if raised then points else 0 }

  lemma AddExact(signals: Signals, condition: bool, f: Finding, candidate: Route, points: int)
    ensures var all := signals.Add(condition, f, candidate, points);
            && (forall g :: g in all.findings <==> g in signals.findings || (condition && g == f))
            && all.delta == signals.delta + Points(condition, points)
            && all.route == if condition && Rank(candidate) > Rank(signals.route) then candidate else signals.route
  {
  }

  /** The findings are exactly those that are raised; the delta adds up their points; and the route is the strongest
      that one of them calls for. */
  lemma SignalsExact(c: Controls, s: Session, r: Request, readCount: nat)
    ensures var signals := RequestSignals(c, s, r, readCount);
            && (forall f :: f in signals.findings <==> Raises(c, s, r, readCount, f))
            && signals.delta ==
               Points(Raises(c, s, r, readCount, SensitiveRead), 10)
               + Points(Raises(c, s, r, readCount, PromptInjection), if Acts(c, r) then 60 else 35)
               + Points(Raises(c, s, r, readCount, SchemaDrift), 50)
               + Points(Raises(c, s, r, readCount, Exfiltration), 50)
               + Points(Raises(c, s, r, readCount, PoisonedChain), 45)
               + Points(Raises(c, s, r, readCount, PrivacyBudget), 30)
            && signals.route ==
               if (exists f | f in {SchemaDrift, Exfiltration, PoisonedChain} :: Raises(c, s, r, readCount, f))
                  || (Raises(c, s, r, readCount, PromptInjection) && Acts(c, r)) then Deny
               else if Raises(c, s, r, readCount, PrivacyBudget) then Escalate
               else if Raises(c, s, r, readCount, PromptInjection) then Sandbox
               else NoRoute
  {
    hide IsSensitiveRead, IsPoisoned, ReadsProtectedInput, IsEgress, HasSideEffect, Preceded, Candidates, Follows,
      Signals.Add, Points, Peeks, Crosses, Acts;
    ActsExact(c, r);
    FollowsExact(s, r, SensitiveMark);
    FollowsExact(s, r, PoisonMark);
    var effect, none := HasSideEffect(c, r), Signals([], NoRoute, 0);
    var route, points := if effect then Deny else Sandbox, if effect then 60 else 35;
    var injected, drifted := IsPoisoned(c, r), SchemaMismatch(r);
    var leaks := Raises(c, s, r, readCount, Exfiltration);
    var chained := Raises(c, s, r, readCount, PoisonedChain);
    var one := none.Add(IsSensitiveRead(r), SensitiveRead, NoRoute, 10);
    var two := one.Add(injected, PromptInjection, route, points);
    var three := two.Add(drifted, SchemaDrift, Deny, 50);
    var four := three.Add(leaks, Exfiltration, Deny, 50);
    var five := four.Add(chained, PoisonedChain, Deny, 45);
    AddExact(none, IsSensitiveRead(r), SensitiveRead, NoRoute, 10);
    AddExact(one, injected, PromptInjection, route, points);
    AddExact(two, drifted, SchemaDrift, Deny, 50);
    AddExact(three, leaks, Exfiltration, Deny, 50);
    AddExact(four, chained, PoisonedChain, Deny, 45);
    AddExact(five, readCount > c.readBudget, PrivacyBudget, Escalate, 30);
  }

  /** The risk of a session grows by a quarter of the request's own risk, rounded towards zero, and the points of its
      findings, but by at least one, up to a hundred. */
  ghost predicate Grows(risk: int, baseRisk: int, delta: int, after: int) {
    exists quarter: int ::
      && (if baseRisk >= 0 then quarter * 4 <= baseRisk < quarter * 4 + 4
          else quarter * 4 - 4 < baseRisk <= quarter * 4)
      && var sum := risk + if quarter + delta < 1 then 1 else quarter + delta;
         after == if sum > 100 then 100 else if sum < 0 then 0 else sum
  }

  /** What an evaluation answers: the signals, and beyond them a finding of its own, calling for escalation, once the
      risk has reached the limit and nothing calls for denial. */
  lemma ResultExact(c: Controls, s: Session, r: Request, baseRisk: int)
    ensures var (t, result) := EvaluateSession(c, s, r, baseRisk);
            var count := s.readCount + if Peeks(r) then 1 else 0;
            var signals := RequestSignals(c, s, r, count);
            var limited := t.risk >= c.riskLimit && signals.route != Deny;
            && Grows(s.risk, baseRisk, signals.delta, t.risk) && t.readCount == count
            && result.findings == (if limited then signals.findings + [RiskLimit] else signals.findings)
            && result.route == (if limited then Escalate else signals.route)
            && result.delta == signals.delta && result.risk == t.risk
            && WalksUp(s.events, r.parentID, result.ancestors) && Stops(s.events, r.parentID, result.ancestors)
            && result.budgetLeft == (if count > c.readBudget then 0 else c.readBudget - count)
  {
    ActsExact(c, r);
    hide IsSensitiveRead, Peeks, IsPoisoned, RequestSignals, WalksUp, Stops;
    AncestorsExact(s.events, r.parentID, Ancestors(s.events, r.parentID, []));
    assert var q := Quarter(baseRisk);
           if baseRisk >= 0 then q * 4 <= baseRisk < q * 4 + 4 else q * 4 - 4 < baseRisk <= q * 4;
    SignalRoutes(c, s, r, s.readCount + if Peeks(r) then 1 else 0);
  }

  lemma SignalRoutes(c: Controls, s: Session, r: Request, readCount: nat)
    ensures RequestSignals(c, s, r, readCount).route in {NoRoute, Sandbox, Escalate, Deny}
  {
    hide RequestSignals, Raises, Acts;
    SignalsExact(c, s, r, readCount);
  }

  function SessionKey(r: Request): string { if r.sessionID == "" then r.requestID else r.sessionID }

  class Engine {
    const controls: Controls
    var sessions: map<string, Session>

    constructor (controls: Controls)
      ensures this.controls == controls && sessions == map[]
    {
      this.controls, sessions := controls, map[];
    }

    method FindPreceding(events: map<string, Summary>, candidates: seq<string>, self: string, mark: Mark)
      returns (found: bool)
      ensures found == Preceded(events, candidates, self, mark)
    {
      for i := 0 to |candidates|
        invariant forall k | 0 <= k < i ::
          candidates[k] == self || candidates[k] !in events || !Has(events[candidates[k]], mark)
      {
        var id := candidates[i];
        if id != self && id in events && Has(events[id], mark) {
          return true;
        }
      }
      return false;
    }

    method Contains(items: seq<string>, target: string) returns (found: bool)
      ensures found <==> target in items
    {
      for i := 0 to |items|
        invariant target !in items[..i]
      {
        if items[i] == target {
          return true;
        }
      }
      assert items[..|items|] == items;
      return false;
    }

    method HasPoisonedInput(r: Request) returns (found: bool)
      ensures found <==> IsPoisoned(controls, r)
    {
      for i := 0 to |r.inputs|
        invariant forall k | 0 <= k < i :: !IsPoisonedSource(controls, r.inputs[k])
      {
        var source := r.inputs[i];
        if source.kind != "retrieval" || (source.trust != "untrusted" && source.trust != "external") {
          continue;
        }
        for j := 0 to |source.riskSignals|
          invariant forall k | 0 <= k < j :: source.riskSignals[k] !in controls.signals
        {
          var accepted := Contains(controls.signals, source.riskSignals[j]);
          if accepted {
            assert IsPoisonedSource(controls, source);
            return true;
          }
        }
      }
      return false;
    }

    method ProtectedInputSource(r: Request) returns (found: bool)
      ensures found <==> ReadsProtectedInput(r)
    {
      for i := 0 to |r.inputs|
        invariant forall k | 0 <= k < i :: !IsProtectedSource(r.inputs[k])
      {
        var source := r.inputs[i];
        if (source.kind == "protected_read" || source.kind == "protected_data") && source.trust != "untrusted" {
          assert IsProtectedSource(source);
          return true;
        }
      }
      return false;
    }

    /** The signals in the engine's order; each is added at most once. */
    method CollectSignals(state: Session, r: Request, candidates: seq<string>, readCount: nat)
      returns (signals: Signals)
      requires candidates == Candidates(state, r.parentID)
      ensures signals == RequestSignals(controls, state, r, readCount)
    {
      hide IsSensitiveRead, IsPoisoned, ReadsProtectedInput, IsEgress, HasSideEffect, SchemaMismatch, Preceded,
        Candidates, Stronger;
      var egress, sideEffect := IsEgress(controls, r), HasSideEffect(controls, r);
      var poisoned := HasPoisonedInput(r);
      var points, route := 35, Sandbox;
      if sideEffect {
        points, route := 60, Deny;
      }
      signals := Signals([], NoRoute, 0)
        .Add(IsSensitiveRead(r), SensitiveRead, NoRoute, 10)
        .Add(poisoned, PromptInjection, route, points)
        .Add(SchemaMismatch(r), SchemaDrift, Deny, 50);
      var exfiltrates := false;
      if egress {
        exfiltrates := ProtectedInputSource(r);
      }
      if egress && !exfiltrates {
        exfiltrates := FindPreceding(state.events, candidates, r.requestID, SensitiveMark);
      }
      signals := signals.Add(exfiltrates, Exfiltration, Deny, 50);
      var chained := false;
      if sideEffect {
        chained := FindPreceding(state.events, candidates, r.requestID, PoisonMark);
      }
      signals := signals.Add(chained, PoisonedChain, Deny, 45)
        .Add(readCount > controls.readBudget, PrivacyBudget, Escalate, 30);
    }

    method Evaluate(r: Request, baseRisk: int) returns (result: Result)
      modifies this
      ensures var id := if r.sessionID == "" then r.requestID else r.sessionID;
              var before := if id in old(sessions) then old(sessions)[id] else Session(map[], [], 0, 0);
              var (after, expected) := EvaluateSession(controls, before, r, baseRisk);
              sessions == old(sessions)[id := after] && result == expected
    {
      hide IsSensitiveRead, IsPoisoned, ReadsProtectedInput, IsEgress, HasSideEffect, SchemaMismatch, Preceded, Has,
        Ancestors, Recent, Remember, RiskAfter, Stronger;
      var state := if SessionKey(r) in sessions then sessions[SessionKey(r)] else NEW_SESSION;
      var ancestors := CausalAncestors(state.events, r.parentID);
      var candidates := if ancestors == [] then Recent(state.order) else ancestors;
      var readCount := state.readCount;
      if IsSensitiveRead(r) {
        readCount := readCount + 1;
      }
      var signals := CollectSignals(state, r, candidates, readCount);
      var remaining := controls.readBudget - readCount;
      if remaining < 0 {
        remaining := 0;
      }
      var risk := RiskAfter(state.risk, baseRisk, signals.delta);
      if risk >= controls.riskLimit && signals.route != Deny {
        signals := signals.Add(true, RiskLimit, Escalate, 0);
      }
      sessions := sessions[SessionKey(r) := Remember(controls, state, r, risk, readCount)];
      result := Result(signals.findings, signals.route, signals.delta, ancestors, risk, remaining);
    }
  }

  // ---------------------------------------------------------------- runs of one session

  datatype Event = Event(request: Request, baseRisk: int)

  /** The session after its first n events. */
  function After(c: Controls, run: seq<Event>, n: nat): Session
    requires n <= |run|
  {
    if n == 0 then NEW_SESSION else EvaluateSession(c, After(c, run, n - 1), run[n - 1].request, run[n - 1].baseRisk).0
  }

  /** What every session keeps: the window, and kept events that are in the order list. */
  predicate SessionOK(s: Session) {
    0 <= s.risk <= 100 && |s.order| <= 128 && forall id | id in s.events :: id in s.order
  }

  lemma EvaluateKeeps(c: Controls, s: Session, r: Request, baseRisk: int)
    requires SessionOK(s)
    ensures var t := EvaluateSession(c, s, r, baseRisk).0;
            SessionOK(t) && t.risk >= s.risk && (t.risk > s.risk || t.risk == 100)
  {
    hide RequestSignals, IsSensitiveRead, IsPoisoned;
    var t := EvaluateSession(c, s, r, baseRisk).0;
    var order := s.order + [r.requestID];
    forall id | id in t.events ensures id in t.order {
      assert id == r.requestID || id in s.order;
      assert id in order;
      assert |order| > WINDOW ==> id != order[0];
    }
  }

  lemma {:induction false} KeptEvents(ids: set<string>, order: seq<string>)
    requires forall id | id in ids :: id in order
    ensures |ids| <= |order|
  {
    if order == [] {
      assert ids == {};
    } else {
      var rest := ids - {order[0]};
      forall id | id in rest ensures id in order[1..] {
        assert id in order && id != order[0];
      }
      KeptEvents(rest, order[1..]);
      assert ids <= rest + {order[0]};
      assert |ids| <= |rest + {order[0]}| by { SubsetSize(ids, rest + {order[0]}); }
    }
  }

  lemma {:induction false} SubsetSize(a: set<string>, b: set<string>)
    requires a <= b
    ensures |a| <= |b|
  {
    if a != {} {
      var x :| x in a;
      SubsetSize(a - {x}, b - {x});
    }
  }

  /** In any session the cumulative risk stays within 0..100, never falls, and is at least min(100, n)
      after n events; at most 128 events are kept, each of them in the order list. */
  lemma {:induction false} SessionBounds(c: Controls, run: seq<Event>, m: nat, n: nat)
    requires m <= n <= |run|
    ensures var s := After(c, run, n);
            && SessionOK(s) && |s.events| <= 128 && s.risk >= Clamp(n, 0, 100) && s.risk >= After(c, run, m).risk
    decreases n
  {
    hide EvaluateSession;
    if n > 0 {
      SessionBounds(c, run, if m == n then n - 1 else m, n - 1);
      EvaluateKeeps(c, After(c, run, n - 1), run[n - 1].request, run[n - 1].baseRisk);
    }
    KeptEvents(After(c, run, n).events.Keys, After(c, run, n).order);
  }

  // ---------------------------------------------------------------- poisoned input, then a side effect

  predicate DistinctEvents(run: seq<Event>, n: nat)
    requires n <= |run|
  {
    forall i, j | 0 <= i < j < n :: run[i].request.requestID != run[j].request.requestID
  }

  /** With distinct event ids the window is exactly the last 128 events and their summaries. */
  predicate WindowIs(c: Controls, run: seq<Event>, n: nat, s: Session)
    requires n <= |run|
  {
    var start := if n > 128 then n - 128 else 0;
    && |s.order| == n - start
    && (forall k | 0 <= k < |s.order| ::
          var r := run[start + k].request;
          && s.order[k] == r.requestID && r.requestID in s.events
          && s.events[r.requestID] == Summary(r.parentID, IsSensitiveRead(r), IsPoisoned(c, r)))
  }

  lemma RememberWindow(c: Controls, run: seq<Event>, n: nat, s: Session, risk: int, readCount: nat)
    requires n < |run| && DistinctEvents(run, n + 1) && WindowIs(c, run, n, s)
    ensures WindowIs(c, run, n + 1, Remember(c, s, run[n].request, risk, readCount))
  {
    hide IsSensitiveRead, IsPoisoned;
    var t := Remember(c, s, run[n].request, risk, readCount);
    var start := if n + 1 > WINDOW then n + 1 - WINDOW else 0;
    var before := if n > WINDOW then n - WINDOW else 0;
    forall k | 0 <= k < |t.order|
      ensures var r := run[start + k].request;
              && t.order[k] == r.requestID && r.requestID in t.events
              && t.events[r.requestID] == Summary(r.parentID, IsSensitiveRead(r), IsPoisoned(c, r))
    {
      if start + k < n {
        var kept := start + k - before;
        assert s.order[kept] == run[before + kept].request.requestID;
      }
    }
  }

  lemma {:induction false} WindowHolds(c: Controls, run: seq<Event>, n: nat)
    requires n <= |run| && DistinctEvents(run, n)
    ensures WindowIs(c, run, n, After(c, run, n))
  {
    hide RequestSignals, Remember, RiskAfter, IsSensitiveRead, IsPoisoned;
    if n > 0 {
      WindowHolds(c, run, n - 1);
      var s, e := After(c, run, n - 1), run[n - 1];
      var readCount := s.readCount + if IsSensitiveRead(e.request) then 1 else 0;
      RememberWindow(c, run, n - 1, s, RiskAfter(s.risk, e.baseRisk, RequestSignals(c, s, e.request, readCount).delta),
                     readCount);
    }
  }

  lemma ChainDenies(c: Controls, s: Session, r: Request, baseRisk: int)
    requires HasSideEffect(c, r) && Preceded(s.events, Candidates(s, r.parentID), r.requestID, PoisonMark)
    ensures EvaluateSession(c, s, r, baseRisk).1.route == Deny
    ensures PoisonedChain in EvaluateSession(c, s, r, baseRisk).1.findings
  {
    hide Candidates, Preceded, HasSideEffect, IsEgress, IsPoisoned, IsSensitiveRead, SchemaMismatch,
      ReadsProtectedInput, Remember;
  }

  /** With distinct event ids, a side-effecting event without a parent that comes within twelve events of
      one with poisoned input is always recommended for denial. */
  lemma PoisonedInputThenSideEffect(c: Controls, run: seq<Event>, i: nat, j: nat)
    requires i < j < |run| && j - i <= 12 && DistinctEvents(run, j + 1)
    requires IsPoisoned(c, run[i].request) && HasSideEffect(c, run[j].request) && run[j].request.parentID == ""
    ensures var result := EvaluateSession(c, After(c, run, j), run[j].request, run[j].baseRisk).1;
            result.route == Deny && PoisonedChain in result.findings
  {
    hide EvaluateSession, IsPoisoned, HasSideEffect, IsSensitiveRead;
    var s := After(c, run, j);
    WindowHolds(c, run, j);
    var start := if j > WINDOW then j - WINDOW else 0;
    var id := run[i].request.requestID;
    assert s.order[i - start] == id;
    var recent := Recent(s.order);
    var shift := |s.order| - |recent|;
    assert recent[i - start - shift] == id;
    assert Candidates(s, "") == recent;
    assert s.events[id].poisoned;
    ChainDenies(c, s, run[j].request, run[j].baseRisk);
  }
}
