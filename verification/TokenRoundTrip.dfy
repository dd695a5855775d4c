/**
  Verifying a signed permit token gives back its claims, and every such token fits the size limit
  the verifier enforces before it parses anything.
 */
module TokenRoundTrip {
  import opened Wrappers
  import opened Permits
  import opened Json
  import opened Token
  import Canonical
  import Numbers

  // ---------------------------------------------------------------- members of an encoded struct

  predicate DistinctSlots(slots: seq<Slot>) {
    forall i, j | 0 <= i < j < |slots| :: slots[i].key != slots[j].key
  }

  predicate ValidSlots(slots: seq<Slot>, budget: int) {
    forall slot | slot in slots :: ValidTree(slot.tree, budget)
  }

  lemma {:induction false} FieldsAre(slots: seq<Slot>)
    ensures forall f | f in Fields(slots) :: exists slot | slot in slots ::
      slot.present && f == Field(slot.key, slot.tree)
    ensures forall slot | slot in slots && slot.present :: Field(slot.key, slot.tree) in Fields(slots)
  {
    if slots != [] {
      FieldsAre(slots[1..]);
      forall f | f in Fields(slots) ensures exists slot | slot in slots ::
        slot.present && f == Field(slot.key, slot.tree) {
        if f in Fields(slots[1..]) {
          var slot :| slot in slots[1..] && slot.present && f == Field(slot.key, slot.tree);
          assert slot in slots;
        } else {
          assert slots[0] in slots;
        }
      }
      forall slot | slot in slots && slot.present ensures Field(slot.key, slot.tree) in Fields(slots) {
        assert slot == slots[0] || slot in slots[1..];
      }
    }
  }

  lemma {:induction false} FieldsDistinct(slots: seq<Slot>)
    requires DistinctSlots(slots)
    ensures DistinctKeys(Fields(slots))
  {
    if slots != [] {
      FieldsDistinct(slots[1..]);
      FieldsAre(slots[1..]);
      var rest := Fields(slots[1..]);
      forall i | 0 <= i < |rest| ensures rest[i].key != slots[0].key {
        assert rest[i] in rest;
        var slot :| slot in slots[1..] && slot.present && rest[i] == Field(slot.key, slot.tree);
        var j :| 0 <= j < |slots[1..]| && slots[1..][j] == slot;
        assert slots[j + 1].key == slot.key;
      }
    }
  }

  lemma StructIsValid(slots: seq<Slot>, budget: int)
    requires DistinctSlots(slots) && budget > 0 && ValidSlots(slots, budget - 1)
    ensures ValidTree(TObj(Fields(slots)), budget)
  {
    FieldsDistinct(slots);
    FieldsAre(slots);
    var fields := Fields(slots);
    forall i | 0 <= i < |fields| ensures ValidTree(fields[i].tree, budget - 1) {
      assert fields[i] in fields;
    }
  }

  /** A present slot reads back as its value; an absent one is missing. */
  lemma ReadSlot(slots: seq<Slot>, budget: int, slot: Slot)
    requires DistinctSlots(slots) && budget > 0 && ValidSlots(slots, budget - 1) && slot in slots
    ensures ValidTree(TObj(Fields(slots)), budget)
    ensures var m := Denote(TObj(Fields(slots)), budget).members;
            if slot.present then slot.key in m && m[slot.key] == Denote(slot.tree, budget - 1) else slot.key !in m
  {
    hide ValidTree, Denote, Fields;
    StructIsValid(slots, budget);
    FieldsDistinct(slots);
    FieldsAre(slots);
    var fields := Fields(slots);
    StructMembers(fields, budget);
    var m := Denote(TObj(fields), budget).members;
    if slot.present {
      var i :| 0 <= i < |fields| && fields[i] == Field(slot.key, slot.tree);
      assert fields[i].key in m;
    } else {
      forall i | 0 <= i < |fields| ensures fields[i].key != slot.key {
        assert fields[i] in fields;
        var other :| other in slots && other.present && fields[i] == Field(other.key, other.tree);
        OtherSlot(slots, slot, other);
      }
    }
  }

  lemma OtherSlot(slots: seq<Slot>, slot: Slot, other: Slot)
    requires DistinctSlots(slots) && slot in slots && other in slots && slot != other
    ensures slot.key != other.key
  {
    var j :| 0 <= j < |slots| && slots[j] == other;
    var k :| 0 <= k < |slots| && slots[k] == slot;
    assert j < k || k < j;
  }

  lemma StructMembers(fields: seq<Field>, budget: int)
    requires ValidTree(TObj(fields), budget)
    ensures forall i | 0 <= i < |fields| :: ValidTree(fields[i].tree, budget - 1)
    ensures Denote(TObj(fields), budget).Obj?
    ensures var m := Denote(TObj(fields), budget).members;
            && (forall k | k in m :: exists i | 0 <= i < |fields| :: fields[i].key == k)
            && (forall i | 0 <= i < |fields| ::
                fields[i].key in m && m[fields[i].key] == Denote(fields[i].tree, budget - 1))
  {
    Canonical.DenoteFieldsKeys(fields, budget - 1, map[]);
    Canonical.DenoteFieldsAt(fields, budget - 1, map[]);
  }

  /** An encoded struct has no members but its slots. */
  lemma OnlySlots(slots: seq<Slot>, budget: int, keys: set<string>)
    requires DistinctSlots(slots) && budget > 0 && ValidSlots(slots, budget - 1)
    requires forall slot | slot in slots :: slot.key in keys
    ensures ValidTree(TObj(Fields(slots)), budget) && Denote(TObj(Fields(slots)), budget).Obj?
    ensures Denote(TObj(Fields(slots)), budget).members.Keys <= keys
  {
    hide ValidTree, Denote, Fields;
    StructIsValid(slots, budget);
    FieldsAre(slots);
    var fields := Fields(slots);
    StructMembers(fields, budget);
    var m := Denote(TObj(fields), budget).members;
    forall k | k in m ensures k in keys {
      var i :| 0 <= i < |fields| && fields[i].key == k;
      assert fields[i] in fields;
    }
  }

  // ---------------------------------------------------------------- the claims' slots

  /** Where each member name stands among the claims; it tells any two names apart. */
  ghost function Position(key: string): int {
    match |key|
    case 3 => if key[0] == 'j' then 0 else if key[1] == 's' then 21 else if key[1] == 'a' then 22 else 23
    case 4 => 10
    case 5 => 5
    case 8 => if key[0] == 'w' then 6 else if key[0] == 'r' then 12 else 15
    case 9 => if key[0] == 'p' then 4 else 13
    case 10 => if key[0] == 'r' then 3 else if key[0] == 'c' then 11 else if key[0] == 'p' then 14 else 24
    case 11 => 20
    case 12 => 2
    case 13 => 16
    case 14 => if key[0] == 's' then 1 else 19
    case 15 => if key[0] == 'e' then 7 else 18
    case 17 => 17
    case 23 => 8
    case _ => 9
  }

  ghost predicate InPlace(slots: seq<Slot>, from: int) {
    forall i | 0 <= i < |slots| :: Position(slots[i].key) == from + i
  }

  lemma ConcatInPlace(a: seq<Slot>, b: seq<Slot>, from: int)
    requires InPlace(a, from) && InPlace(b, from + |a|)
    ensures InPlace(a + b, from)
  {
    hide Position;
  }

  lemma InPlaceDistinct(slots: seq<Slot>)
    requires InPlace(slots, 0)
    ensures DistinctSlots(slots)
  {
    hide Position;
    forall i, j | 0 <= i < j < |slots| ensures slots[i].key != slots[j].key {
      assert Position(slots[i].key) != Position(slots[j].key);
    }
  }

  lemma IdentityInPlace(c: Claims)
    ensures InPlace(IdentitySlots(c), 0)
  {
  }

  lemma ExecutorInPlace(c: Claims)
    ensures InPlace(ExecutorSlots(c), 7)
  {
  }

  lemma ActionInPlace(c: Claims)
    ensures InPlace(ActionSlots(c), 10)
  {
  }

  lemma BindingInPlace(c: Claims)
    ensures InPlace(BindingSlots(c), 17)
  {
    hide Fields;
  }

  lemma LifetimeInPlace(c: Claims)
    ensures InPlace(LifetimeSlots(c), 21)
  {
  }

  lemma ClaimSlotsDistinct(c: Claims)
    ensures DistinctSlots(ClaimSlots(c))
  {
    hide InPlace, Position;
    var one, two, three, four, five := IdentitySlots(c), ExecutorSlots(c), ActionSlots(c), BindingSlots(c),
      LifetimeSlots(c);
    IdentityInPlace(c);
    ExecutorInPlace(c);
    ConcatInPlace(one, two, 0);
    ActionInPlace(c);
    ConcatInPlace(one + two, three, 0);
    BindingInPlace(c);
    ConcatInPlace(one + two + three, four, 0);
    LifetimeInPlace(c);
    ConcatInPlace(one + two + three + four, five, 0);
    InPlaceDistinct(ClaimSlots(c));
  }

  // ---------------------------------------------------------------- integers

  const INT_BOUND := 100_000_000_000_000_000_000

  lemma {:induction false} FormatNatSize(n: nat, k: nat, bound: nat)
    requires n < bound && bound == Pow10(k) && k > 0
    ensures |Numbers.FormatNat(n)| <= k
    decreases k
  {
    if n >= 10 {
      FormatNatSize(n / 10, k - 1, Pow10(k - 1));
    }
  }

  ghost function Pow10(k: nat): nat { if k == 0 then 1 else 10 * Pow10(k - 1) }

  lemma TwentyDigits()
    ensures Pow10(20) == INT_BOUND
  {
    assert Pow10(4) == 10_000;
    assert Pow10(8) == 100_000_000;
    assert Pow10(12) == 1_000_000_000_000;
    assert Pow10(16) == 10_000_000_000_000_000;
  }

  /** Integers of at most twenty digits are written plainly, are accepted, and keep their value. */
  lemma IntegerReads(n: int)
    requires -INT_BOUND < n < INT_BOUND
    ensures |Numbers.FormatInt(n)| <= 21 && Numbers.Normalize(Numbers.FormatInt(n)).Some?
    ensures var text := Numbers.Normalize(Numbers.FormatInt(n)).value;
            Numbers.MatchesPattern(text) && Numbers.NumberValue(text) == n as real
  {
    hide Numbers.FormatNat;
    var magnitude: nat := if n < 0 then -n else n;
    var digits := Numbers.FormatNat(magnitude);
    TwentyDigits();
    FormatNatSize(magnitude, 20, INT_BOUND);
    IntegerLiteral(n);
    ShortNormalizes(n < 0, digits);
    Numbers.NormalizeExact(Numbers.FormatInt(n));
  }

  lemma IntegerLiteral(n: int)
    ensures var digits := Numbers.FormatNat(if n < 0 then -n else n);
            && Numbers.FormatInt(n) == Numbers.Text(Numbers.CanonicalLiteral(n < 0, digits, 0))
            && Numbers.MatchesPattern(Numbers.FormatInt(n)) && Numbers.NumberValue(Numbers.FormatInt(n)) == n as real
  {
    hide Numbers.FormatNat, Numbers.ScanNumber, Numbers.DigitsValue;
    var digits := Numbers.FormatNat(if n < 0 then -n else n);
    Numbers.CanonicalText(n < 0, digits, 0);
    Numbers.CanonicalReads(n < 0, digits, 0);
    Numbers.CanonicalValue(n < 0, digits, 0);
  }

  lemma ShortNormalizes(negative: bool, digits: string)
    requires Numbers.ValidWhole(digits) && |digits| <= 20
    ensures Numbers.Normalize(Numbers.Text(Numbers.CanonicalLiteral(negative, digits, 0))).Some?
  {
    hide Numbers.ScanNumber, Numbers.Text;
    Numbers.CanonicalReads(negative, digits, 0);
    assert digits + "" == digits;
    TrimLeadingShorter(digits);
  }

  lemma {:induction false} TrimLeadingShorter(s: string)
    ensures |Numbers.TrimLeadingZeros(s)| <= |s|
  {
    if s != "" && s[0] == '0' {
      TrimLeadingShorter(s[1..]);
    }
  }

  lemma IntReadsBack(m: map<string, Value>, key: string, n: int, low: int, high: int)
    requires -INT_BOUND < n < INT_BOUND && low <= n <= high
    requires Numbers.Normalize(Numbers.FormatInt(n)).Some?
    requires key in m && m[key] == Num(Numbers.Normalize(Numbers.FormatInt(n)).value)
    ensures IntAt(m, key, low, high) == Some(n)
  {
    hide Numbers.Normalize, Numbers.NumberValue, Numbers.MatchesPattern;
    IntegerReads(n);
  }

  // ---------------------------------------------------------------- claims round trip

  /** The ranges of the Go fields: uint64 and int64. */
  predicate GoRanges(c: Claims) {
    c.authorityEpoch <= MAX_UINT64 && INT64_MIN <= c.issuedAt <= INT64_MAX && INT64_MIN <= c.expiresAt <= INT64_MAX
  }

  lemma ObligationSlotsDistinct(o: Obligations)
    ensures DistinctSlots(ObligationSlots(o))
  {
  }

  lemma ObligationsValid(o: Obligations, budget: int)
    requires budget > 0
    ensures ValidTree(TObj(Fields(ObligationSlots(o))), budget)
  {
    hide Fields;
    ObligationSlotsDistinct(o);
    StructIsValid(ObligationSlots(o), budget);
  }

  lemma TextSlotsValid(slots: seq<Slot>, budget: int)
    requires budget >= 0 && forall slot | slot in slots :: slot.tree.TStr?
    ensures ValidSlots(slots, budget)
  {
  }

  lemma BindingSlotsValid(c: Claims, budget: int)
    requires GoRanges(c) && budget > 0
    ensures ValidSlots(BindingSlots(c), budget)
  {
    hide Fields, Numbers.FormatInt, Numbers.Normalize;
    ObligationsValid(c.obligations, budget);
    IntegerReads(c.authorityEpoch);
  }

  lemma LifetimeSlotsValid(c: Claims, budget: int)
    requires GoRanges(c) && budget > 0
    ensures ValidSlots(LifetimeSlots(c), budget)
  {
    hide Numbers.FormatInt, Numbers.Normalize;
    IntegerReads(c.issuedAt);
    IntegerReads(c.expiresAt);
  }

  lemma ClaimSlotsValid(c: Claims)
    requires GoRanges(c)
    ensures ValidSlots(ClaimSlots(c), Canonical.MAX_JSON_DEPTH - 1)
  {
    hide ValidTree, BindingSlots, LifetimeSlots;
    var budget := Canonical.MAX_JSON_DEPTH - 1;
    TextSlotsValid(IdentitySlots(c), budget);
    TextSlotsValid(ExecutorSlots(c), budget);
    TextSlotsValid(ActionSlots(c), budget);
    BindingSlotsValid(c, budget);
    LifetimeSlotsValid(c, budget);
  }

  ghost function MembersOf(c: Claims): map<string, Value>
    requires GoRanges(c)
  {
    ClaimSlotsDistinct(c);
    ClaimSlotsValid(c);
    StructIsValid(ClaimSlots(c), Canonical.MAX_JSON_DEPTH);
    Denote(ClaimsTree(c), Canonical.MAX_JSON_DEPTH).members
  }

  lemma StringReadsBack(c: Claims, slot: Slot, s: string)
    requires GoRanges(c) && slot in ClaimSlots(c) && slot.tree == TStr(s) && (!slot.present ==> s == "")
    ensures StringAt(MembersOf(c), slot.key) == Some(s)
  {
    hide ClaimSlots, Fields, InPlace, ValidSlots, DistinctSlots;
    ClaimSlotsDistinct(c);
    ClaimSlotsValid(c);
    ReadSlot(ClaimSlots(c), Canonical.MAX_JSON_DEPTH, slot);
  }

  lemma NumberReadsBack(c: Claims, slot: Slot, n: int, low: int, high: int)
    requires GoRanges(c) && slot in ClaimSlots(c) && slot.tree == TNum(Numbers.FormatInt(n))
      && (!slot.present ==> n == 0)
    requires -INT_BOUND < n < INT_BOUND && low <= n <= high
    ensures IntAt(MembersOf(c), slot.key, low, high) == Some(n)
  {
    hide ClaimSlots, Fields, InPlace, ValidSlots, DistinctSlots, Numbers.FormatInt, Numbers.Normalize,
      Numbers.NumberValue, Numbers.MatchesPattern;
    ClaimSlotsDistinct(c);
    ClaimSlotsValid(c);
    ReadSlot(ClaimSlots(c), Canonical.MAX_JSON_DEPTH, slot);
    if slot.present {
      IntegerReads(n);
      IntReadsBack(MembersOf(c), slot.key, n, low, high);
    }
  }

  lemma FlagReadsBack(o: Obligations, m: map<string, Value>, slot: Slot, b: bool, budget: int)
    requires budget > 0 && slot in ObligationSlots(o) && slot == Flag(slot.key, b)
    requires ValidTree(TObj(Fields(ObligationSlots(o))), budget)
    requires m == Denote(TObj(Fields(ObligationSlots(o))), budget).members
    ensures BoolAt(m, slot.key) == Some(b)
  {
    hide Fields, DistinctSlots;
    ObligationSlotsDistinct(o);
    ReadSlot(ObligationSlots(o), budget, slot);
  }

  lemma FlagsReadBack(o: Obligations, budget: int)
    requires budget > 0
    ensures ValidTree(TObj(Fields(ObligationSlots(o))), budget)
    ensures Denote(TObj(Fields(ObligationSlots(o))), budget).Obj?
    ensures DecodeObligations(map["obligations" := Denote(TObj(Fields(ObligationSlots(o))), budget)]) == Some(o)
  {
    hide Fields, DistinctSlots, BoolAt, ValidTree, Denote;
    ObligationsValid(o, budget);
    ObligationSlotsDistinct(o);
    var slots := ObligationSlots(o);
    FlagsAreValid(slots, budget - 1);
    OnlySlots(slots, budget, OBLIGATION_KEYS);
    var m := Denote(TObj(Fields(slots)), budget).members;
    FlagReadsBack(o, m, slots[0], o.isolation, budget);
    FlagReadsBack(o, m, slots[1], o.noEgress, budget);
    FlagReadsBack(o, m, slots[2], o.readOnly, budget);
    FlagReadsBack(o, m, slots[3], o.approval, budget);
    FlagReadsBack(o, m, slots[4], o.audit, budget);
    assert forall k | k in m :: k in OBLIGATION_KEYS && BoolAt(m, k).Some?;
  }

  lemma FlagsAreValid(slots: seq<Slot>, budget: int)
    requires budget >= 0 && forall slot | slot in slots :: slot.tree.TBool?
    ensures ValidSlots(slots, budget)
  {
  }

  lemma ObligationsReadBack(c: Claims)
    requires GoRanges(c)
    ensures DecodeObligations(MembersOf(c)) == Some(c.obligations)
  {
    hide Fields, DistinctSlots, ClaimSlots, ObligationSlots, ValidSlots, ValidTree, Denote;
    ClaimSlotsDistinct(c);
    ClaimSlotsValid(c);
    ObligationsInClaims(c);
    ReadSlot(ClaimSlots(c), Canonical.MAX_JSON_DEPTH,
             Slot("obligations", TObj(Fields(ObligationSlots(c.obligations))), true));
    FlagsReadBack(c.obligations, Canonical.MAX_JSON_DEPTH - 1);
  }

  lemma ObligationsInClaims(c: Claims)
    ensures Slot("obligations", TObj(Fields(ObligationSlots(c.obligations))), true) in ClaimSlots(c)
  {
    hide Fields;
    assert BindingSlots(c)[3] in BindingSlots(c);
  }

  lemma IdentityReadsBack(c: Claims)
    requires GoRanges(c)
    ensures var m := MembersOf(c);
            && StringAt(m, "jti") == Some(c.permitID) && StringAt(m, "signing_key_id") == Some(c.signingKeyID)
            && StringAt(m, "permit_class") == Some(ClassName(c.permitClass))
               && StringAt(m, "request_id") == Some(c.requestID)
            && StringAt(m, "principal") == Some(c.principalID) && StringAt(m, "agent") == Some(c.agentID)
            && StringAt(m, "workload") == Some(c.workloadID)
  {
    hide MembersOf, StringAt, Fields, BindingSlots, LifetimeSlots, ExecutorSlots, ActionSlots;
    var slots := IdentitySlots(c);
    assert forall slot | slot in slots :: slot in ClaimSlots(c);
    StringReadsBack(c, slots[0], c.permitID);
    StringReadsBack(c, slots[1], c.signingKeyID);
    StringReadsBack(c, slots[2], ClassName(c.permitClass));
    StringReadsBack(c, slots[3], c.requestID);
    StringReadsBack(c, slots[4], c.principalID);
    StringReadsBack(c, slots[5], c.agentID);
    StringReadsBack(c, slots[6], c.workloadID);
  }

  lemma ExecutorReadsBack(c: Claims)
    requires GoRanges(c)
    ensures var m := MembersOf(c);
            && StringAt(m, "executor_key_id") == Some(c.executorKeyID)
            && StringAt(m, "executor_key_thumbprint") == Some(c.executorKeyThumbprint)
            && StringAt(m, "delegated_authority_fingerprint") == Some(c.delegation)
            && StringAt(m, "execution_binding") == Some(c.executionBinding)
               && StringAt(m, "policy_version") == Some(c.policyVersion)
            && StringAt(m, "iss") == Some(c.issuer)
  {
    hide MembersOf, StringAt, Fields, IdentitySlots, ActionSlots;
    var executor, binding, lifetime := ExecutorSlots(c), BindingSlots(c), LifetimeSlots(c);
    assert forall slot | slot in executor || slot in binding || slot in lifetime :: slot in ClaimSlots(c);
    StringReadsBack(c, executor[0], c.executorKeyID);
    StringReadsBack(c, executor[1], c.executorKeyThumbprint);
    StringReadsBack(c, executor[2], c.delegation);
    StringReadsBack(c, binding[0], c.executionBinding);
    StringReadsBack(c, binding[2], c.policyVersion);
    StringReadsBack(c, lifetime[0], c.issuer);
  }

  lemma ActionReadsBack(c: Claims)
    requires GoRanges(c)
    ensures var m := MembersOf(c);
            && StringAt(m, "tool") == Some(c.tool) && StringAt(m, "capability") == Some(c.capability)
            && StringAt(m, "resource") == Some(c.resource) && StringAt(m, "operation") == Some(c.operation)
            && StringAt(m, "profile_id") == Some(c.profileID) && StringAt(m, "audience") == Some(c.audience)
            && StringAt(m, "action_digest") == Some(c.actionDigest)
  {
    hide MembersOf, StringAt, Fields, IdentitySlots, BindingSlots, LifetimeSlots, ExecutorSlots;
    var slots := ActionSlots(c);
    assert forall slot | slot in slots :: slot in ClaimSlots(c);
    StringReadsBack(c, slots[0], c.tool);
    StringReadsBack(c, slots[1], c.capability);
    StringReadsBack(c, slots[2], c.resource);
    StringReadsBack(c, slots[3], c.operation);
    StringReadsBack(c, slots[4], c.profileID);
    StringReadsBack(c, slots[5], c.audience);
    StringReadsBack(c, slots[6], c.actionDigest);
  }

  lemma NumbersReadBack(c: Claims)
    requires GoRanges(c)
    ensures var m := MembersOf(c);
            && IntAt(m, "authority_epoch", 0, MAX_UINT64) == Some(c.authorityEpoch)
            && IntAt(m, "iat", INT64_MIN, INT64_MAX) == Some(c.issuedAt)
            && IntAt(m, "exp", INT64_MIN, INT64_MAX) == Some(c.expiresAt)
            && BoolAt(m, "single_use") == Some(c.singleUse)
  {
    hide MembersOf, IntAt, Fields, IdentitySlots, ExecutorSlots, ActionSlots, Numbers.FormatInt;
    var binding, lifetime := BindingSlots(c), LifetimeSlots(c);
    assert forall slot | slot in binding || slot in lifetime :: slot in ClaimSlots(c);
    NumberReadsBack(c, binding[1], c.authorityEpoch, 0, MAX_UINT64);
    NumberReadsBack(c, lifetime[1], c.issuedAt, INT64_MIN, INT64_MAX);
    NumberReadsBack(c, lifetime[2], c.expiresAt, INT64_MIN, INT64_MAX);
    SingleUseReadsBack(c, lifetime[3]);
  }

  lemma SingleUseReadsBack(c: Claims, slot: Slot)
    requires GoRanges(c) && slot in ClaimSlots(c) && slot == Slot("single_use", TBool(c.singleUse), true)
    ensures BoolAt(MembersOf(c), "single_use") == Some(c.singleUse)
  {
    hide ClaimSlots, Fields, InPlace, ValidSlots, DistinctSlots;
    ClaimSlotsDistinct(c);
    ClaimSlotsValid(c);
    ReadSlot(ClaimSlots(c), Canonical.MAX_JSON_DEPTH, slot);
  }

  lemma NoOtherMembers(c: Claims)
    requires GoRanges(c)
    ensures MembersOf(c).Keys <= STRING_KEYS + OTHER_KEYS
  {
    hide Fields, InPlace, ValidSlots, DistinctSlots, Numbers.FormatInt;
    ClaimSlotsDistinct(c);
    ClaimSlotsValid(c);
    forall slot | slot in ClaimSlots(c) ensures slot.key in STRING_KEYS + OTHER_KEYS {
    }
    OnlySlots(ClaimSlots(c), Canonical.MAX_JSON_DEPTH, STRING_KEYS + OTHER_KEYS);
  }

  /** Decoding encoded claims gives back every field. */
  lemma ClaimsReadBack(c: Claims)
    requires GoRanges(c) && !c.permitClass.Unknown?
    ensures ValidTree(ClaimsTree(c), Canonical.MAX_JSON_DEPTH)
    ensures DecodeClaims(Denote(ClaimsTree(c), Canonical.MAX_JSON_DEPTH)) == Some(c)
  {
    hide StringAt, IntAt, BoolAt, DecodeObligations, ClaimSlots, Fields, InPlace, ValidSlots, DistinctSlots;
    ClaimSlotsDistinct(c);
    ClaimSlotsValid(c);
    StructIsValid(ClaimSlots(c), Canonical.MAX_JSON_DEPTH);
    IdentityReadsBack(c);
    ExecutorReadsBack(c);
    ActionReadsBack(c);
    NumbersReadBack(c);
    ObligationsReadBack(c);
    NoOtherMembers(c);
    assert Denote(ClaimsTree(c), Canonical.MAX_JSON_DEPTH) == Obj(MembersOf(c));
    assert forall k | k in STRING_KEYS :: StringAt(MembersOf(c), k).Some?;
  }

  lemma HeaderReadsBack(h: Header)
    requires h.version == 1 || h.version == 2
    ensures ValidTree(HeaderTree(h), Canonical.MAX_JSON_DEPTH)
    ensures DecodeHeader(Denote(HeaderTree(h), Canonical.MAX_JSON_DEPTH)) == Some(h)
  {
    hide Fields, Numbers.FormatInt, Numbers.Normalize, Numbers.NumberValue, Numbers.MatchesPattern;
    var slots := HeaderSlots(h);
    var budget := Canonical.MAX_JSON_DEPTH;
    IntegerReads(h.version);
    assert DistinctSlots(slots);
    assert ValidSlots(slots, budget - 1);
    OnlySlots(slots, budget, {"alg", "typ", "v", "kid"});
    ReadSlot(slots, budget, slots[0]);
    ReadSlot(slots, budget, slots[1]);
    ReadSlot(slots, budget, slots[2]);
    ReadSlot(slots, budget, slots[3]);
    IntReadsBack(Denote(HeaderTree(h), budget).members, "v", h.version, INT64_MIN, INT64_MAX);
  }
}
