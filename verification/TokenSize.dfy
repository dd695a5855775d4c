/**
  The size of a compact permit token: the field limits of the claims, sixfold JSON escaping and
  base64url growth together stay below the verifier's limit of 64 KiB.
 */
module TokenSize {
  import opened CanonicalAction
  import opened Permits
  import opened Json
  import opened Token
  import opened TokenRoundTrip
  import opened Wrappers
  import Base64
  import Canonical
  import Numbers
  import Strings
  import Utf8

  // ---------------------------------------------------------------- escaping

  /** Characters of key ids, digests and member names: one byte each, never escaped. */
  predicate Plain(s: string) { forall i | 0 <= i < |s| :: IsKeyIDChar(s[i]) }

  lemma {:induction false} PlainSize(s: string)
    requires Plain(s)
    ensures Strings.Escape(s) == s && Utf8.Size(s) == |s|
  {
    if s != "" {
      assert IsKeyIDChar(s[0]);
      forall i | 0 <= i < |s[1..]| ensures IsKeyIDChar(s[1..][i]) {
        assert s[1..][i] == s[i + 1];
      }
      PlainSize(s[1..]);
      assert Strings.EscapeChar(s[0]) == [s[0]];
      assert [s[0]] + s[1..] == s;
    }
  }

  lemma HexIsShort(n: nat)
    requires n < 16
    ensures Strings.HexDigit(n) as int < 0x80
  {
  }

  lemma EscapedCharSize(c: char)
    ensures Utf8.Size(Strings.EscapeChar(c)) <= 6 * |Utf8.EncodeChar(c)|
  {
    var e := Strings.EscapeChar(c);
    if Strings.ShortEscape(c).Some? {
      Utf8.AsciiSize(e);
    } else if Strings.NeedsUnicodeEscape(c) {
      var n := c as int;
      HexIsShort(n / 0x1000);
      HexIsShort(n / 0x100 % 16);
      HexIsShort(n / 0x10 % 16);
      HexIsShort(n % 16);
      Utf8.AsciiSize(e);
    } else {
      assert Utf8.Encode(e) == Utf8.EncodeChar(c) + Utf8.Encode("") by {
        assert e[1..] == "";
      }
    }
  }

  /** Escaping grows text at most sixfold. */
  lemma {:induction false} EscapeSize(s: string)
    ensures Utf8.Size(Strings.Escape(s)) <= 6 * Utf8.Size(s)
  {
    hide Strings.EscapeChar, Utf8.EncodeChar;
    if s != "" {
      EscapeSize(s[1..]);
      EscapedCharSize(s[0]);
      Utf8.SizeConcat(Strings.EscapeChar(s[0]), Strings.Escape(s[1..]));
    }
  }

  lemma QuoteSize(s: string)
    ensures Utf8.Size(Strings.Quote(s)) == Utf8.Size(Strings.Escape(s)) + 2
  {
    hide Strings.Escape, Utf8.EncodeChar;
    Utf8.AsciiSize("\"");
    Utf8.SizeConcat("\"", Strings.Escape(s));
    Utf8.SizeConcat("\"" + Strings.Escape(s), "\"");
  }

  // ---------------------------------------------------------------- encoded structs

  /** What a slot adds to its struct: name, colon, value and comma. */
  function SlotCost(slot: Slot): nat { Utf8.Size(Strings.Quote(slot.key)) + 2 + Utf8.Size(Render(slot.tree)) }

  function TotalCost(slots: seq<Slot>): nat {
    if slots == [] then 0 else SlotCost(slots[0]) + TotalCost(slots[1..])
  }

  lemma {:induction false} TotalConcat(a: seq<Slot>, b: seq<Slot>)
    ensures TotalCost(a + b) == TotalCost(a) + TotalCost(b)
  {
    if a == [] {
      assert a + b == b;
    } else {
      assert (a + b)[1..] == a[1..] + b;
      TotalConcat(a[1..], b);
    }
  }

  lemma FieldSize(field: Field)
    ensures Utf8.Size(RenderField(field)) == Utf8.Size(Strings.Quote(field.key)) + 1 + Utf8.Size(Render(field.tree))
  {
    hide Strings.Quote, Render;
    Utf8.AsciiSize(":");
    Utf8.SizeConcat(Strings.Quote(field.key), ":");
    Utf8.SizeConcat(Strings.Quote(field.key) + ":", Render(field.tree));
  }

  lemma {:induction false} MoreFieldsSize(slots: seq<Slot>)
    ensures Utf8.Size(RenderMoreFields(Fields(slots))) <= TotalCost(slots)
  {
    hide Strings.Quote, Render, RenderField, Utf8.Encode;
    if slots == [] {
      Utf8.AsciiSize("");
    } else {
      MoreFieldsSize(slots[1..]);
      if slots[0].present {
        MoreFieldsStep(Field(slots[0].key, slots[0].tree), Fields(slots[1..]));
      } else {
        assert [] + Fields(slots[1..]) == Fields(slots[1..]);
      }
    }
  }

  lemma MoreFieldsStep(field: Field, rest: seq<Field>)
    ensures Utf8.Size(RenderMoreFields([field] + rest)) ==
            Utf8.Size(Strings.Quote(field.key)) + 2 + Utf8.Size(Render(field.tree)) + Utf8.Size(RenderMoreFields(rest))
  {
    hide Strings.Quote, Render, RenderField, Utf8.EncodeChar;
    assert ([field] + rest)[1..] == rest;
    FieldSize(field);
    Utf8.AsciiSize(",");
    Utf8.SizeConcat(",", RenderField(field));
    Utf8.SizeConcat("," + RenderField(field), RenderMoreFields(rest));
  }

  lemma FieldsSize(fields: seq<Field>)
    ensures Utf8.Size(RenderFields(fields)) <= Utf8.Size(RenderMoreFields(fields))
  {
    hide Strings.Quote, Render, RenderField, Utf8.Encode;
    if fields != [] {
      var first, rest := RenderField(fields[0]), RenderMoreFields(fields[1..]);
      Utf8.SizeConcat(",", first);
      Utf8.SizeConcat("," + first, rest);
      Utf8.SizeConcat(first, rest);
    }
  }

  lemma StructSize(slots: seq<Slot>)
    ensures Utf8.Size(Render(TObj(Fields(slots)))) <= 2 + TotalCost(slots)
  {
    hide RenderFields, RenderMoreFields, Fields, Utf8.EncodeChar;
    MoreFieldsSize(slots);
    FieldsSize(Fields(slots));
    Utf8.AsciiSize("{");
    Utf8.AsciiSize("}");
    Utf8.SizeConcat("{", RenderFields(Fields(slots)));
    Utf8.SizeConcat("{" + RenderFields(Fields(slots)), "}");
  }

  // ---------------------------------------------------------------- the cost of a slot

  lemma TextCost(slot: Slot, s: string, limit: nat)
    requires Plain(slot.key) && slot.tree == TStr(s) && Utf8.Size(s) <= limit
    ensures SlotCost(slot) <= |slot.key| + 6 + 6 * limit
  {
    hide Strings.Escape, Strings.Quote, Utf8.Encode, Plain;
    PlainSize(slot.key);
    QuoteSize(slot.key);
    QuoteSize(s);
    EscapeSize(s);
  }

  lemma PlainCost(slot: Slot, s: string, limit: nat)
    requires Plain(slot.key) && slot.tree == TStr(s) && Plain(s) && |s| <= limit
    ensures SlotCost(slot) <= |slot.key| + 6 + limit
  {
    hide Strings.Escape, Strings.Quote, Utf8.Encode, Plain;
    PlainSize(slot.key);
    QuoteSize(slot.key);
    PlainSize(s);
    QuoteSize(s);
  }

  lemma ShortCost(slot: Slot, limit: nat)
    requires Plain(slot.key) && |Render(slot.tree)| <= limit && forall i | 0 <= i < |Render(slot.tree)| ::
      Render(slot.tree)[i] as int < 0x80
    ensures SlotCost(slot) <= |slot.key| + 4 + limit
  {
    hide Strings.Escape, Strings.Quote, Utf8.Encode, Plain, Render;
    PlainSize(slot.key);
    QuoteSize(slot.key);
    Utf8.AsciiSize(Render(slot.tree));
  }

  lemma NumberCost(slot: Slot, n: int)
    requires Plain(slot.key) && slot.tree == TNum(Numbers.FormatInt(n)) && -INT_BOUND < n < INT_BOUND
    ensures SlotCost(slot) <= |slot.key| + 25
  {
    hide Numbers.FormatNat, Numbers.Normalize, Numbers.NumberValue, Plain;
    IntegerReads(n);
    ShortCost(slot, 21);
  }

  lemma BoolCost(slot: Slot, b: bool)
    requires Plain(slot.key) && slot.tree == TBool(b)
    ensures SlotCost(slot) <= |slot.key| + 9
    ensures b ==> SlotCost(slot) <= |slot.key| + 8
  {
    hide Plain;
    if b {
      ShortCost(slot, 4);
    } else {
      ShortCost(slot, 5);
    }
  }

  lemma DigestPlain(s: string)
    requires s == "" || IsDigest(s)
    ensures Plain(s) && |s| <= 71
  {
    if s != "" {
      forall i | 0 <= i < |s| ensures IsKeyIDChar(s[i]) {
        if i < 7 {
          assert s[i] == s[..7][i];
        }
      }
    }
  }

  lemma KeyIDPlain(s: string)
    requires s == "" || ValidKeyID(s)
    ensures Plain(s) && |s| <= 128
  {
    if s != "" {
      PlainSize(s);
    }
  }

  // ---------------------------------------------------------------- the cost of the claims

  lemma TotalStep(slots: seq<Slot>, n: nat)
    requires n < |slots|
    ensures TotalCost(slots[n..]) == SlotCost(slots[n]) + TotalCost(slots[n + 1..])
  {
    hide SlotCost;
    assert slots[n..][1..] == slots[n + 1..];
  }

  lemma IdentityKeys(c: Claims)
    ensures forall slot | slot in IdentitySlots(c) :: Plain(slot.key)
  {
  }

  lemma IdentityCost(c: Claims)
    requires ValidClaims(c)
    ensures TotalCost(IdentitySlots(c)) <= 11377
  {
    hide TotalCost, SlotCost, Plain, ValidClaims, IsDigest, ValidKeyID, Utf8.Encode, ClassName, Fields, Render,
      Numbers.FormatInt;
    IdentityKeys(c);
    IdentityLimits(c);
    KeyIDPlain(c.signingKeyID);
    ClassCost(c);
    var slots := IdentitySlots(c);
    TextCost(slots[0], c.permitID, 160);
    PlainCost(slots[1], c.signingKeyID, 128);
    TextCost(slots[3], c.requestID, 160);
    TextCost(slots[4], c.principalID, 512);
    TextCost(slots[5], c.agentID, 512);
    TextCost(slots[6], c.workloadID, 512);
    TotalSeven(slots);
  }

  lemma IdentityLimits(c: Claims)
    requires ValidClaims(c)
    ensures Utf8.Size(c.permitID) <= 160 && Utf8.Size(c.requestID) <= 160 && Utf8.Size(c.principalID) <= 512
    ensures Utf8.Size(c.agentID) <= 512 && Utf8.Size(c.workloadID) <= 512 && ValidKeyID(c.signingKeyID)
  {
  }

  lemma ClassKnown(c: Claims)
    requires ValidClaims(c)
    ensures !c.permitClass.Unknown?
  {
  }

  lemma ClassNamePlain(permitClass: PermitClass)
    requires !permitClass.Unknown?
    ensures Plain(ClassName(permitClass)) && |ClassName(permitClass)| <= 10
  {
    assert Plain("execution") && Plain("simulation");
  }

  lemma ClassCost(c: Claims)
    requires ValidClaims(c)
    ensures SlotCost(IdentitySlots(c)[2]) <= 28
  {
    hide ValidClaims, Plain, Utf8.Encode, SlotCost, Render;
    ClassKnown(c);
    ClassNamePlain(c.permitClass);
    IdentityKeys(c);
    PlainCost(IdentitySlots(c)[2], ClassName(c.permitClass), 10);
  }

  lemma TotalSeven(slots: seq<Slot>)
    requires |slots| == 7
    ensures TotalCost(slots) == SlotCost(slots[0]) + SlotCost(slots[1]) + SlotCost(slots[2]) + SlotCost(slots[3])
                                + SlotCost(slots[4]) + SlotCost(slots[5]) + SlotCost(slots[6])
  {
    hide SlotCost;
    TotalTail(slots, 3);
    TotalStep(slots, 0);
    TotalStep(slots, 1);
    TotalStep(slots, 2);
    assert slots[0..] == slots;
  }

  /** The last four slots. */
  lemma TotalTail(slots: seq<Slot>, n: nat)
    requires |slots| == n + 4
    ensures TotalCost(slots[n..]) == SlotCost(slots[n]) + SlotCost(slots[n + 1]) + SlotCost(slots[n + 2])
      + SlotCost(slots[n + 3])
  {
    hide SlotCost;
    TotalStep(slots, n);
    TotalStep(slots, n + 1);
    TotalStep(slots, n + 2);
    TotalStep(slots, n + 3);
    assert slots[n + 4..] == [];
  }

  lemma ExecutorKeys(c: Claims)
    ensures forall slot | slot in ExecutorSlots(c) :: Plain(slot.key)
  {
  }

  lemma ExecutorValid(c: Claims)
    requires ValidClaims(c)
    ensures c.executorKeyID == "" || ValidKeyID(c.executorKeyID)
    ensures c.executorKeyThumbprint == "" || IsDigest(c.executorKeyThumbprint)
    ensures c.delegation == "" || IsDigest(c.delegation)
    ensures c.executionBinding == "" || IsDigest(c.executionBinding)
    ensures IsDigest(c.actionDigest)
  {
  }

  lemma ExecutorCost(c: Claims)
    requires ValidClaims(c)
    ensures TotalCost(ExecutorSlots(c)) <= 357
  {
    hide TotalCost, SlotCost, Plain, ValidClaims, IsDigest, ValidKeyID, Utf8.Encode, ClassName, Fields, Render,
      Numbers.FormatInt;
    ExecutorKeys(c);
    ExecutorValid(c);
    KeyIDPlain(c.executorKeyID);
    DigestPlain(c.executorKeyThumbprint);
    DigestPlain(c.delegation);
    var slots := ExecutorSlots(c);
    PlainCost(slots[0], c.executorKeyID, 128);
    PlainCost(slots[1], c.executorKeyThumbprint, 71);
    PlainCost(slots[2], c.delegation, 71);
    TotalStep(slots, 0);
    TotalStep(slots, 1);
    TotalStep(slots, 2);
    TotalEmpty();
    assert slots[0..] == slots && slots[3..] == [];
  }

  lemma TotalEmpty()
    ensures TotalCost([]) == 0
  {
  }

  lemma ActionNames()
    ensures Plain("tool") && Plain("capability") && Plain("resource") && Plain("operation")
  {
  }

  lemma MetadataNames()
    ensures Plain("profile_id") && Plain("audience") && Plain("action_digest")
  {
  }

  lemma ActionKeys(c: Claims)
    ensures forall slot | slot in ActionSlots(c) :: Plain(slot.key)
  {
    hide Plain;
    ActionNames();
    MetadataNames();
  }

  lemma ActionLimits(c: Claims)
    requires ValidClaims(c)
    ensures Utf8.Size(c.tool) <= 512 && Utf8.Size(c.capability) <= 512 && Utf8.Size(c.resource) <= 2048
    ensures Utf8.Size(c.operation) <= 512 && Utf8.Size(c.profileID) <= 256 && Utf8.Size(c.audience) <= 1024
    ensures Utf8.Size(c.policyVersion) <= 512 && Utf8.Size(c.issuer) <= 512
  {
  }

  lemma ActionCost(c: Claims)
    requires ValidClaims(c)
    ensures TotalCost(ActionSlots(c)) <= 29359
  {
    hide TotalCost, SlotCost, Plain, ValidClaims, IsDigest, ValidKeyID, Utf8.Encode, ClassName, Fields, Render,
      Numbers.FormatInt;
    ActionKeys(c);
    ActionLimits(c);
    ExecutorValid(c);
    DigestPlain(c.actionDigest);
    var slots := ActionSlots(c);
    TextCost(slots[0], c.tool, 512);
    TextCost(slots[1], c.capability, 512);
    TextCost(slots[2], c.resource, 2048);
    TextCost(slots[3], c.operation, 512);
    TextCost(slots[4], c.profileID, 256);
    TextCost(slots[5], c.audience, 1024);
    PlainCost(slots[6], c.actionDigest, 71);
    TotalSeven(slots);
  }

  lemma ObligationKeys(o: Obligations)
    ensures forall slot | slot in ObligationSlots(o) :: Plain(slot.key)
  {
    hide Plain;
    ConfinementKeys(o);
    OversightKeys(o);
  }

  lemma ConfinementKeys(o: Obligations)
    ensures Plain(ObligationSlots(o)[0].key) && Plain(ObligationSlots(o)[1].key) && Plain(ObligationSlots(o)[2].key)
  {
  }

  lemma OversightKeys(o: Obligations)
    ensures Plain(ObligationSlots(o)[3].key) && Plain(ObligationSlots(o)[4].key)
  {
  }

  lemma ObligationCost(o: Obligations)
    ensures Utf8.Size(Render(TObj(Fields(ObligationSlots(o))))) <= 141
  {
    hide TotalCost, SlotCost, Plain, ValidClaims, IsDigest, ValidKeyID, Utf8.Encode, ClassName, Fields, Render,
      Numbers.FormatInt;
    ObligationKeys(o);
    var slots := ObligationSlots(o);
    BoolCost(slots[0], o.isolation);
    BoolCost(slots[1], o.noEgress);
    BoolCost(slots[2], o.readOnly);
    BoolCost(slots[3], o.approval);
    BoolCost(slots[4], o.audit);
    TotalStep(slots, 0);
    TotalTail(slots, 1);
    assert slots[0..] == slots;
    StructSize(slots);
  }

  lemma BindingNames()
    ensures Plain("execution_binding") && Plain("authority_epoch") && Plain("policy_version") && Plain("obligations")
  {
  }

  lemma BindingKeys(c: Claims)
    ensures forall slot | slot in BindingSlots(c) :: Plain(slot.key)
  {
    hide Fields, Plain, Numbers.FormatInt;
    BindingNames();
  }

  lemma StructCost(slot: Slot, limit: nat)
    requires Plain(slot.key) && Utf8.Size(Render(slot.tree)) <= limit
    ensures SlotCost(slot) <= |slot.key| + 4 + limit
  {
    hide Render, Strings.Quote, Utf8.Encode, Plain;
    PlainSize(slot.key);
    QuoteSize(slot.key);
  }

  lemma BindingCost(c: Claims)
    requires ValidClaims(c) && GoRanges(c)
    ensures TotalCost(BindingSlots(c)) <= 3382
  {
    hide TotalCost, SlotCost, Plain, ValidClaims, IsDigest, ValidKeyID, Utf8.Encode, ClassName, Fields, Render,
      Numbers.FormatInt;
    BindingKeys(c);
    ActionLimits(c);
    ExecutorValid(c);
    DigestPlain(c.executionBinding);
    var slots := BindingSlots(c);
    PlainCost(slots[0], c.executionBinding, 71);
    NumberCost(slots[1], c.authorityEpoch);
    TextCost(slots[2], c.policyVersion, 512);
    ObligationCost(c.obligations);
    StructCost(slots[3], 141);
    TotalTail(slots, 0);
    assert slots[0..] == slots;
  }

  lemma LifetimeKeys(c: Claims)
    ensures forall slot | slot in LifetimeSlots(c) :: Plain(slot.key)
  {
    hide Numbers.FormatInt;
  }

  lemma LifetimeCost(c: Claims)
    requires ValidClaims(c) && GoRanges(c)
    ensures TotalCost(LifetimeSlots(c)) <= 3156
  {
    hide TotalCost, SlotCost, Plain, ValidClaims, IsDigest, ValidKeyID, Utf8.Encode, ClassName, Fields, Render,
      Numbers.FormatInt;
    LifetimeKeys(c);
    ActionLimits(c);
    var slots := LifetimeSlots(c);
    TextCost(slots[0], c.issuer, 512);
    NumberCost(slots[1], c.issuedAt);
    NumberCost(slots[2], c.expiresAt);
    BoolCost(slots[3], c.singleUse);
    TotalTail(slots, 0);
    assert slots[0..] == slots;
  }

  /** Encoded claims are at most 47,633 bytes. */
  lemma ClaimsSize(c: Claims)
    requires ValidClaims(c) && GoRanges(c)
    ensures Utf8.Size(Render(ClaimsTree(c))) <= 47633
  {
    hide TotalCost, SlotCost, ValidClaims, IdentitySlots, ExecutorSlots, ActionSlots, BindingSlots, LifetimeSlots,
      Fields, Render;
    var one, two, three, four, five := IdentitySlots(c), ExecutorSlots(c), ActionSlots(c), BindingSlots(c),
      LifetimeSlots(c);
    IdentityCost(c);
    ExecutorCost(c);
    ActionCost(c);
    BindingCost(c);
    LifetimeCost(c);
    TotalConcat(one, two);
    TotalConcat(one + two, three);
    TotalConcat(one + two + three, four);
    TotalConcat(one + two + three + four, five);
    StructSize(ClaimSlots(c));
  }

  lemma HeaderSize(h: Header)
    requires SupportedHeader(h)
    ensures Utf8.Size(Render(HeaderTree(h))) <= 204
  {
    var slots := HeaderSlots(h);
    assert Plain(slots[0].key) && Plain(slots[1].key) && Plain(slots[2].key) && Plain(slots[3].key);
    assert Plain("EdDSA") && Plain(TOKEN_TYPE);
    KeyIDPlain(h.keyID);
    hide TotalCost, SlotCost, Plain, Fields, Render, Numbers.FormatInt, ValidKeyID;
    PlainCost(slots[0], h.algorithm, 5);
    PlainCost(slots[1], h.tokenType, 12);
    NumberCost(slots[2], h.version);
    PlainCost(slots[3], h.keyID, 128);
    TotalTail(slots, 0);
    assert slots[0..] == slots;
    StructSize(slots);
  }

  // ---------------------------------------------------------------- the compact token

  /** Base64url text and dots: one byte per character, and no dot inside a part. */
  predicate IsPart(s: string) { forall i | 0 <= i < |s| :: Base64.IsSextet(s[i]) }

  lemma PartChars(s: string)
    requires IsPart(s)
    ensures forall i | 0 <= i < |s| :: s[i] as int < 0x80 && s[i] != '.'
  {
    forall i | 0 <= i < |s| ensures s[i] as int < 0x80 && s[i] != '.' {
      assert Base64.IsSextet(s[i]);
    }
  }

  lemma {:induction false} SplitPart(part: string, rest: string)
    requires forall i | 0 <= i < |part| :: part[i] != '.'
    ensures SplitDots(part + "." + rest) == [part] + SplitDots(rest)
  {
    var s := part + "." + rest;
    if part == "" {
      assert s[1..] == rest;
    } else {
      assert s[1..] == part[1..] + "." + rest;
      SplitPart(part[1..], rest);
      assert [part[0]] + part[1..] == part;
    }
  }

  lemma {:induction false} SplitLast(part: string)
    requires forall i | 0 <= i < |part| :: part[i] != '.'
    ensures SplitDots(part) == [part]
  {
    if part != "" {
      SplitLast(part[1..]);
      assert [part[0]] + part[1..] == part;
    }
  }

  /** Three base64url parts joined by dots split into exactly those parts. */
  lemma PartsRoundTrip(a: string, b: string, c: string)
    requires IsPart(a) && IsPart(b) && IsPart(c) && a != "" && b != "" && c != ""
    requires |a| + |b| + |c| + 2 <= MAX_COMPACT_BYTES
    ensures TokenParts(a + "." + b + "." + c) == Some((a, b, c))
    ensures Utf8.Size(a + "." + b + "." + c) == |a| + |b| + |c| + 2
  {
    hide IsPart, SplitDots, Utf8.Encode;
    PartChars(a);
    PartChars(b);
    PartChars(c);
    var token := a + "." + b + "." + c;
    assert token == a + "." + (b + "." + c);
    SplitPart(a, b + "." + c);
    SplitPart(b, c);
    SplitLast(c);
    assert SplitDots(token) == [a, b, c];
    Utf8.AsciiSize(token);
  }

  lemma EncodedPart(t: Tree)
    ensures IsPart(EncodeJSON(t)) && |EncodeJSON(t)| == (4 * Utf8.Size(Render(t)) + 2) / 3
  {
    hide Render, Utf8.Encode;
    Base64.EncodeShape(Utf8.Encode(Render(t)));
  }

  /** Reading back an encoded document gives the value it spells. */
  lemma ReadEncoded(t: Tree)
    requires ValidTree(t, Canonical.MAX_JSON_DEPTH) && Utf8.Size(Render(t)) <= Canonical.MAX_ARGUMENTS_BYTES
    ensures ReadDocument(EncodeJSON(t)) == Some(Denote(t, Canonical.MAX_JSON_DEPTH))
    ensures EncodeJSON(t) != ""
  {
    hide Render, ValidTree, Denote, Utf8.Encode, Utf8.Decode, Canonical.ParseText, Canonical.TrimSpace, Base64.Encode,
      Base64.Decode;
    Base64.RoundTrip(Utf8.Encode(Render(t)));
    Base64.EncodeShape(Utf8.Encode(Render(t)));
    Utf8.DecodeEncode(Render(t));
    Canonical.RenderTrimmed(t, Canonical.MAX_JSON_DEPTH);
    Canonical.ParseRendered(t);
    NonEmptyRender(t);
  }

  lemma NonEmptyRender(t: Tree)
    requires ValidTree(t, Canonical.MAX_JSON_DEPTH)
    ensures Utf8.Size(Render(t)) > 0
  {
    RenderStarts(t, Canonical.MAX_JSON_DEPTH);
  }

  /** Every token the signer makes fits the limit the verifier checks first. */
  lemma TokenFits(keyID: string, c: Claims)
    requires ValidClaims(c) && GoRanges(c) && ValidKeyID(keyID)
    ensures |EncodeJSON(HeaderTree(HeaderFor(keyID, c)))| <= 272 && |EncodeJSON(ClaimsTree(c))| <= 63511
    ensures |SigningInput(keyID, c)| + 1 + 86 <= MAX_COMPACT_BYTES
  {
    hide ValidClaims, ValidKeyID, EncodeJSON, HeaderTree, ClaimsTree, Render, Utf8.Encode;
    HeaderSize(HeaderFor(keyID, c));
    ClaimsSize(c);
    EncodedPart(HeaderTree(HeaderFor(keyID, c)));
    EncodedPart(ClaimsTree(c));
  }

  lemma SignatureText(signature: Bytes)
    requires |signature| == 64
    ensures IsPart(Base64.Encode(signature)) && |Base64.Encode(signature)| == 86
    ensures Base64.Decode(Base64.Encode(signature)) == Some(signature)
  {
    Base64.EncodeShape(signature);
    Base64.RoundTrip(signature);
  }

  /** The two documents of a token read back as the header and the claims. */
  lemma DocumentsReadBack(c: Claims)
    requires ValidClaims(c) && GoRanges(c)
    ensures var h := HeaderFor(c.signingKeyID, c);
            var header, payload := ReadDocument(EncodeJSON(HeaderTree(h))), ReadDocument(EncodeJSON(ClaimsTree(c)));
            && SupportedHeader(h) && EncodeJSON(HeaderTree(h)) != "" && EncodeJSON(ClaimsTree(c)) != ""
            && header.Some? && DecodeHeader(header.value) == Some(h) && payload.Some?
               && DecodeClaims(payload.value) == Some(c)
  {
    SigningKeyValid(c);
    ClassKnown(c);
    hide ValidClaims, ValidKeyID, EncodeJSON, HeaderTree, ClaimsTree, Render, Utf8.Encode, ReadDocument, DecodeHeader,
      DecodeClaims, ValidTree, Denote;
    var h := HeaderFor(c.signingKeyID, c);
    HeaderSize(h);
    ClaimsSize(c);
    HeaderReadsBack(h);
    ClaimsReadBack(c);
    ReadEncoded(HeaderTree(h));
    ReadEncoded(ClaimsTree(c));
  }

  lemma SignedParts(scheme: Scheme, privateKey: Bytes, c: Claims)
    requires Correct(scheme, privateKey) && ValidClaims(c) && GoRanges(c)
    ensures var a, b := EncodeJSON(HeaderTree(HeaderFor(c.signingKeyID, c))), EncodeJSON(ClaimsTree(c));
            var signature := scheme.sign(privateKey, Utf8.Encode(a + "." + b));
            && SignToken(scheme, privateKey, c.signingKeyID, c) == Ok(a + "." + b + "." + Base64.Encode(signature))
            && TokenParts(a + "." + b + "." + Base64.Encode(signature)) == Some((a, b, Base64.Encode(signature)))
            && Utf8.Size(a + "." + b + "." + Base64.Encode(signature)) <= MAX_COMPACT_BYTES
            && |signature| == 64 && Base64.Decode(Base64.Encode(signature)) == Some(signature)
            && scheme.verify(scheme.publicOf(privateKey), Utf8.Encode(a + "." + b), signature)
  {
    SigningKeyValid(c);
    hide ValidClaims, ValidKeyID, EncodeJSON, HeaderTree, ClaimsTree, Utf8.Encode, ReadDocument, TokenParts,
      Base64.Encode, Base64.Decode, IsPart, DecodeHeader, DecodeClaims;
    DocumentsReadBack(c);
    TokenFits(c.signingKeyID, c);
    var h := HeaderTree(HeaderFor(c.signingKeyID, c));
    var a, b := EncodeJSON(h), EncodeJSON(ClaimsTree(c));
    var signature := scheme.sign(privateKey, Utf8.Encode(a + "." + b));
    EncodedPart(h);
    EncodedPart(ClaimsTree(c));
    SignatureText(signature);
    PartsRoundTrip(a, b, Base64.Encode(signature));
  }

  /** Verifying a signed token returns the same claims, for every valid Claims; the header names the
      signing key and says version 2 exactly when there is an execution binding; and the token never
      exceeds 64 KiB. */
  lemma SignedTokenVerifies(scheme: Scheme, privateKey: Bytes, c: Claims)
    requires Correct(scheme, privateKey) && ValidClaims(c) && GoRanges(c)
    ensures SignToken(scheme, privateKey, c.signingKeyID, c).Ok?
    ensures var token := SignToken(scheme, privateKey, c.signingKeyID, c).value;
            && Utf8.Size(token) <= MAX_COMPACT_BYTES
            && VerifyToken(scheme, scheme.publicOf(privateKey), token) == Ok(c)
            && TokenKeyID(token) == Ok(c.signingKeyID)
            && TokenParts(token).Some? && ReadDocument(TokenParts(token).value.0).Some?
            && var header := DecodeHeader(ReadDocument(TokenParts(token).value.0).value);
               header.Some? && (header.value.version == 2 <==> c.executionBinding != "")
  {
    hide ValidClaims, ValidKeyID, EncodeJSON, HeaderTree, ClaimsTree, Utf8.Encode, ReadDocument, DecodeHeader,
      DecodeClaims, TokenParts, Base64.Encode, Base64.Decode, SignToken, SupportedHeader;
    DocumentsReadBack(c);
    SignedParts(scheme, privateKey, c);
  }

  lemma SigningKeyValid(c: Claims)
    requires ValidClaims(c)
    ensures ValidKeyID(c.signingKeyID)
  {
  }
}
