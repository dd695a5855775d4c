/**
  Exact decimal normalization of JSON number literals
  (internal/canonicalaction/action.go, normalizeJSONNumber).

  A literal is split by the grammar of section 6 of RFC 8259, given a meaning as
  a real number that does not mention normalization, and normalized by the
  source's steps.  The lemmas relate the two.
 */
module Numbers {
  import opened Wrappers

  const MAX_EXPONENT := 1_000_000

  // ---------------------------------------------------------------- digits

  predicate IsDigit(c: char) { '0' <= c <= '9' }

  predicate AllDigits(s: string) { forall i | 0 <= i < |s| :: IsDigit(s[i]) }

  function DigitValue(c: char): nat
    requires IsDigit(c)
  {
    c as int - '0' as int
  }

  function DigitsValue(s: string): nat
    requires AllDigits(s)
  {
    if s == "" then 0 else 10 * DigitsValue(s[..|s| - 1]) + DigitValue(s[|s| - 1])
  }

  function DigitChar(d: nat): char
    requires d < 10
  {
    ('0' as int + d) as char
  }

  /** Decimal text of a natural number, as strconv.FormatInt prints it. */
  function FormatNat(n: nat): (s: string)
    ensures s != "" && AllDigits(s) && DigitsValue(s) == n
    ensures s[0] == '0' ==> s == "0"
  {
    if n < 10 then
      assert [DigitChar(n)][..0] == [];
      [DigitChar(n)]
    else
      var s := FormatNat(n / 10) + [DigitChar(n % 10)];
      assert s[..|s| - 1] == FormatNat(n / 10);
      s
  }

  function FormatInt(n: int): string {
    if n < 0 then "-" + FormatNat(-n) else FormatNat(n)
  }

  // ---------------------------------------------------------------- grammar

  /** The parts of a literal.  Marker, sign and digits of the exponent are kept apart. */
  datatype ExponentPart = ExponentPart(marker: char, sign: string, digits: string)

  datatype Literal = Literal(negative: bool, whole: string, fraction: Option<string>, exponent: Option<ExponentPart>)

  predicate ValidWhole(whole: string) {
    whole != "" && AllDigits(whole) && (whole[0] == '0' ==> whole == "0")
  }

  predicate ValidExponent(e: ExponentPart) {
    && (e.marker == 'e' || e.marker == 'E')
    && (e.sign == "" || e.sign == "+" || e.sign == "-")
    && e.digits != "" && AllDigits(e.digits)
  }

  predicate ValidLiteral(l: Literal) {
    && ValidWhole(l.whole)
    && (l.fraction.Some? ==> l.fraction.value != "" && AllDigits(l.fraction.value))
    && (l.exponent.Some? ==> ValidExponent(l.exponent.value))
  }

  function PartText(fraction: Option<string>): string {
    match fraction case None => "" case Some(f) => "." + f
  }

  function ExponentPartText(exponent: Option<ExponentPart>): string {
    match exponent case None => "" case Some(e) => [e.marker] + e.sign + e.digits
  }

  function UnsignedText(l: Literal): string {
    l.whole + PartText(l.fraction) + ExponentPartText(l.exponent)
  }

  function Text(l: Literal): string {
    if l.negative then "-" + UnsignedText(l) else UnsignedText(l)
  }

  /** Longest prefix of digits. */
  function DigitPrefix(s: string): (n: nat)
    ensures n <= |s| && AllDigits(s[..n]) && (n < |s| ==> !IsDigit(s[n]))
  {
    if s == "" || !IsDigit(s[0]) then 0
    else
      var n := DigitPrefix(s[1..]);
      assert s[..n + 1] == [s[0]] + s[1..][..n];
      n + 1
  }

  function ScanWhole(s: string): Option<(string, string)> {
    var n := DigitPrefix(s);
    if n == 0 then None
    else if s[0] == '0' then Some(("0", s[1..]))
    else Some((s[..n], s[n..]))
  }

  function ScanFraction(s: string): Option<(Option<string>, string)> {
    if s != "" && s[0] == '.' then
      var n := DigitPrefix(s[1..]);
      if n == 0 then None else Some((Some(s[1..n + 1]), s[n + 1..]))
    else Some((None, s))
  }

  function ScanExponent(s: string): Option<(Option<ExponentPart>, string)> {
    if s != "" && (s[0] == 'e' || s[0] == 'E') then
      var signed := |s| > 1 && (s[1] == '+' || s[1] == '-');
      var sign := if signed then s[1..2] else "";
      var from := 1 + |sign|;
      var n := DigitPrefix(s[from..]);
      if n == 0 then None
      else Some((Some(ExponentPart(s[0], sign, s[from..from + n])), s[from + n..]))
    else Some((None, s))
  }

  function ScanUnsigned(s: string, negative: bool): Option<(Literal, string)> {
    match ScanWhole(s)
    case None => None
    case Some((whole, s1)) =>
      match ScanFraction(s1)
      case None => None
      case Some((fraction, s2)) =>
        match ScanExponent(s2)
        case None => None
        case Some((exponent, rest)) => Some((Literal(negative, whole, fraction, exponent), rest))
  }

  /** The number literal at the front of s and what follows it, or None. */
  function ScanNumber(s: string): Option<(Literal, string)> {
    if s != "" && s[0] == '-' then ScanUnsigned(s[1..], true) else ScanUnsigned(s, false)
  }

  lemma DigitPrefixTake(digits: string, rest: string)
    requires AllDigits(digits) && (rest == "" || !IsDigit(rest[0]))
    ensures DigitPrefix(digits + rest) == |digits|
  {
    var s := digits + rest;
    if digits == "" {
      assert s == rest;
    } else {
      assert s[0] == digits[0];
      assert s[1..] == digits[1..] + rest;
      DigitPrefixTake(digits[1..], rest);
    }
  }

  lemma ScanFractionSplits(s: string)
    requires ScanFraction(s).Some?
    ensures var (fraction, rest) := ScanFraction(s).value;
            && (fraction.Some? ==> fraction.value != "" && AllDigits(fraction.value))
            && s == PartText(fraction) + rest
  {
    if s != "" && s[0] == '.' {
      var n := DigitPrefix(s[1..]);
      assert s[1..n + 1] == s[1..][..n];
    }
  }

  lemma SliceConcat(s: string, i: nat, j: nat)
    requires 1 <= i <= j <= |s|
    ensures s == [s[0]] + s[1..i] + s[i..j] + s[j..]
  {
  }

  lemma ScanExponentSplits(s: string)
    requires ScanExponent(s).Some?
    ensures var (exponent, rest) := ScanExponent(s).value;
            && (exponent.Some? ==> ValidExponent(exponent.value))
            && s == ExponentPartText(exponent) + rest
  {
    if s != "" && (s[0] == 'e' || s[0] == 'E') {
      var from := if |s| > 1 && (s[1] == '+' || s[1] == '-') then 2 else 1;
      var n := DigitPrefix(s[from..]);
      assert s[from..from + n] == s[from..][..n];
      SliceConcat(s, from, from + n);
    }
  }

  lemma Concat3(a: string, b: string, c: string)
    ensures a + (b + c) == a + b + c
  {
  }

  lemma ConcatAssoc(a: string, b: string, c: string, d: string)
    ensures a + (b + (c + d)) == (a + b + c) + d
  {
  }

  lemma ScanUnsignedSplits(s: string, negative: bool)
    requires ScanUnsigned(s, negative).Some?
    ensures var (l, rest) := ScanUnsigned(s, negative).value;
            ValidLiteral(l) && l.negative == negative && s == UnsignedText(l) + rest
  {
    var (whole, s1) := ScanWhole(s).value;
    assert s == whole + s1 && ValidWhole(whole);
    var (fraction, s2) := ScanFraction(s1).value;
    ScanFractionSplits(s1);
    var (exponent, rest) := ScanExponent(s2).value;
    ScanExponentSplits(s2);
    ConcatAssoc(whole, PartText(fraction), ExponentPartText(exponent), rest);
  }

  lemma SignedSplit(s: string, unsigned: string, rest: string)
    requires s != "" && s[0] == '-' && s[1..] == unsigned + rest
    ensures s == "-" + unsigned + rest
  {
  }

  /** What the scanner consumes is a well-formed literal, spelled by what was consumed. */
  lemma ScanSplits(s: string)
    requires ScanNumber(s).Some?
    ensures var (l, rest) := ScanNumber(s).value;
            ValidLiteral(l) && s == Text(l) + rest && |rest| < |s|
  {
    if s != "" && s[0] == '-' {
      ScanUnsignedSplits(s[1..], true);
      var (l, rest) := ScanUnsigned(s[1..], true).value;
      SignedSplit(s, UnsignedText(l), rest);
    } else {
      ScanUnsignedSplits(s, false);
    }
  }

  /** Text after a literal that cannot be read as part of it. */
  predicate Delimited(rest: string) {
    rest == "" || (!IsDigit(rest[0]) && rest[0] != '.' && rest[0] != 'e' && rest[0] != 'E')
  }

  lemma ScanWholeText(whole: string, rest: string)
    requires ValidWhole(whole) && (rest == "" || !IsDigit(rest[0]))
    ensures ScanWhole(whole + rest) == Some((whole, rest))
  {
    DigitPrefixTake(whole, rest);
    assert (whole + rest)[|whole|..] == rest;
    assert (whole + rest)[..|whole|] == whole;
  }

  lemma ScanFractionText(fraction: Option<string>, rest: string)
    requires fraction.Some? ==> fraction.value != "" && AllDigits(fraction.value)
    requires rest == "" || (!IsDigit(rest[0]) && rest[0] != '.')
    ensures ScanFraction(PartText(fraction) + rest) == Some((fraction, rest))
  {
    var s := PartText(fraction) + rest;
    if fraction.Some? {
      var f := fraction.value;
      assert s[1..] == f + rest;
      DigitPrefixTake(f, rest);
      assert s[|f| + 1..] == rest;
      assert s[1..|f| + 1] == f;
    } else {
      assert s == rest;
    }
  }

  lemma ConcatSlices(a: string, b: string, c: string, d: string)
    ensures var s := a + b + c + d;
            && s[|a|..|a| + |b|] == b
            && s[|a| + |b|..] == c + d
            && s[|a| + |b|..|a| + |b| + |c|] == c
            && s[|a| + |b| + |c|..] == d
  {
  }

  lemma ScanExponentPart(e: ExponentPart, rest: string)
    requires ValidExponent(e) && Delimited(rest)
    ensures ScanExponent([e.marker] + e.sign + e.digits + rest) == Some((Some(e), rest))
  {
    var s := [e.marker] + e.sign + e.digits + rest;
    var from := 1 + |e.sign|;
    ConcatSlices([e.marker], e.sign, e.digits, rest);
    DigitPrefixTake(e.digits, rest);
    assert s[0] == e.marker;
    assert s[1] == if e.sign == "" then e.digits[0] else e.sign[0];
    assert (s[1] == '+' || s[1] == '-') <==> e.sign != "" by {
      assert IsDigit(e.digits[0]);
    }
    assert s[1..from] == e.sign && s[from..] == e.digits + rest;
  }

  lemma ScanExponentText(exponent: Option<ExponentPart>, rest: string)
    requires (exponent.Some? ==> ValidExponent(exponent.value)) && Delimited(rest)
    ensures ScanExponent(ExponentPartText(exponent) + rest) == Some((exponent, rest))
  {
    if exponent.Some? {
      ScanExponentPart(exponent.value, rest);
    } else {
      assert "" + rest == rest;
    }
  }

  lemma ScanUnsignedText(l: Literal, rest: string)
    requires ValidLiteral(l) && Delimited(rest)
    ensures ScanUnsigned(UnsignedText(l) + rest, l.negative) == Some((l, rest))
  {
    var tail := ExponentPartText(l.exponent) + rest;
    var afterWhole := PartText(l.fraction) + tail;
    ConcatAssoc(l.whole, PartText(l.fraction), ExponentPartText(l.exponent), rest);
    assert afterWhole == "" || !IsDigit(afterWhole[0]);
    ScanWholeText(l.whole, afterWhole);
    assert tail == "" || (!IsDigit(tail[0]) && tail[0] != '.');
    ScanFractionText(l.fraction, tail);
    ScanExponentText(l.exponent, rest);
  }

  /** Scanning the spelling of a literal gives back the literal: the grammar is unambiguous. */
  lemma ScanText(l: Literal, rest: string)
    requires ValidLiteral(l) && Delimited(rest)
    ensures ScanNumber(Text(l) + rest) == Some((l, rest))
  {
    ScanUnsignedText(l, rest);
    var unsigned := UnsignedText(l) + rest;
    if l.negative {
      Concat3("-", UnsignedText(l), rest);
      assert ("-" + unsigned)[1..] == unsigned;
    } else {
      assert unsigned[0] == l.whole[0];
    }
  }

  // ---------------------------------------------------------------- meaning

  /** x times ten to the power n, for any integer n. */
  ghost function Scaled(x: real, n: int): real
    decreases if n < 0 then -n else n
  {
    if n == 0 then x else if n > 0 then 10.0 * Scaled(x, n - 1) else Scaled(x, n + 1) / 10.0
  }

  ghost function Signed(negative: bool, magnitude: real): real {
    if negative then -magnitude else magnitude
  }

  function ExponentValue(l: Literal): int
    requires ValidLiteral(l)
  {
    match l.exponent
    case None => 0
    case Some(e) =>
      var magnitude: int := DigitsValue(e.digits);
      if e.sign == "-" then -magnitude else magnitude
  }

  function FractionDigits(l: Literal): string {
    match l.fraction case None => "" case Some(f) => f
  }

  /** The rational number a literal denotes (RFC 8259 section 6), with no reference to normalization. */
  ghost function LiteralValue(l: Literal): real
    requires ValidLiteral(l)
  {
    Signed(l.negative,
           Scaled(DigitsValue(l.whole) as real + Scaled(DigitsValue(FractionDigits(l)) as real, -|FractionDigits(l)|),
                  ExponentValue(l)))
  }

  predicate MatchesPattern(input: string) {
    ScanNumber(input).Some? && ScanNumber(input).value.1 == ""
  }

  function LiteralOf(input: string): (l: Literal)
    requires MatchesPattern(input)
    ensures ValidLiteral(l) && Text(l) == input
  {
    ScanSplits(input);
    ScanNumber(input).value.0
  }

  ghost function NumberValue(input: string): real
    requires MatchesPattern(input)
  {
    LiteralValue(LiteralOf(input))
  }

  // ---------------------------------------------------------------- normalization

  predicate InRange(exponent: int) { -MAX_EXPONENT <= exponent <= MAX_EXPONENT }

  function TrimLeadingZeros(s: string): string {
    if s != "" && s[0] == '0' then TrimLeadingZeros(s[1..]) else s
  }

  function TrimTrailingZeros(s: string): (r: string)
    ensures |r| <= |s| && r == s[..|r|]
  {
    if |s| > 1 && s[|s| - 1] == '0' then TrimTrailingZeros(s[..|s| - 1]) else s
  }

  /** The literal spelled by a canonical number with the given sign, digits and exponent. */
  function CanonicalLiteral(negative: bool, digits: string, exponent: int): Literal {
    Literal(negative, digits, None,
            if exponent == 0 then None
            else if exponent < 0 then Some(ExponentPart('e', "-", FormatNat(-exponent)))
            else Some(ExponentPart('e', "", FormatNat(exponent))))
  }

  /** Sign, digits and exponent of a literal once its point is removed. */
  function ScaledParts(l: Literal): Option<(bool, string, int)>
    requires ValidLiteral(l)
  {
    var fraction := FractionDigits(l);
    var scaled := ExponentValue(l) - |fraction|;
    if !InRange(ExponentValue(l)) || |fraction| > MAX_EXPONENT || !InRange(scaled) then None
    else Some((l.negative, l.whole + fraction, scaled))
  }

  function FormatParts(negative: bool, unsigned: string, scaled: int): Option<string> {
    var digits := TrimLeadingZeros(unsigned);
    if digits == "" then Some("0")
    else
      var significant := TrimTrailingZeros(digits);
      var exponent := scaled + |digits| - |significant|;
      if !InRange(exponent) then None
      else Some(Text(CanonicalLiteral(negative, significant, exponent)))
  }

  function NormalizeLiteral(l: Literal): Option<string>
    requires ValidLiteral(l)
  {
    match ScaledParts(l)
    case None => None
    case Some((negative, unsigned, scaled)) => FormatParts(negative, unsigned, scaled)
  }

  function Normalize(input: string): Option<string> {
    if MatchesPattern(input) then NormalizeLiteral(LiteralOf(input)) else None
  }

  /** First index of a character of the given set, as strings.IndexAny reports it. */
  function IndexAny(s: string, chars: set<char>): (index: Option<nat>)
    ensures index.Some? ==> index.value < |s|
  {
    if s == "" then None
    else if s[0] in chars then Some(0)
    else match IndexAny(s[1..], chars) case None => None case Some(i) => Some(i + 1)
  }

  lemma IndexAnySkips(prefix: string, rest: string, chars: set<char>)
    requires forall i | 0 <= i < |prefix| :: prefix[i] !in chars
    ensures IndexAny(prefix + rest, chars) ==
            match IndexAny(rest, chars) case None => None case Some(i) => Some(|prefix| + i)
  {
    if prefix == "" {
      assert prefix + rest == rest;
    } else {
      assert (prefix + rest)[1..] == prefix[1..] + rest;
      IndexAnySkips(prefix[1..], rest, chars);
    }
  }

  /** strconv.ParseInt on an optional sign and digits, without its 64-bit limit: a value outside
      it is also outside the exponent range, and both are the same error. */
  function ParseInt(s: string): int
    requires s != "" && AllDigits(if s[0] == '+' || s[0] == '-' then s[1..] else s)
  {
    if s[0] == '-' then
      var magnitude: int := DigitsValue(s[1..]);
      -magnitude
    else if s[0] == '+' then DigitsValue(s[1..])
    else DigitsValue(s)
  }

  lemma ParseExponent(e: ExponentPart)
    requires ValidExponent(e)
    ensures var tail := e.sign + e.digits;
            && tail != "" && AllDigits(if tail[0] == '+' || tail[0] == '-' then tail[1..] else tail)
            && ParseInt(tail) == if e.sign == "-" then 0 - DigitsValue(e.digits) else DigitsValue(e.digits)
  {
    var tail := e.sign + e.digits;
    if e.sign == "" {
      assert tail == e.digits && IsDigit(tail[0]);
    } else {
      assert tail[0] == e.sign[0] && tail[1..] == e.digits;
    }
  }

  /** The exponent marker, if any, splits the unsigned text; what follows it is the exponent. */
  lemma SplitAtMarker(l: Literal)
    requires ValidLiteral(l)
    ensures var unsigned := UnsignedText(l);
            var mantissa := l.whole + PartText(l.fraction);
            match IndexAny(unsigned, {'e', 'E'})
            case None => l.exponent.None? && unsigned == mantissa
            case Some(i) =>
              && l.exponent.Some? && unsigned[..i] == mantissa
              && unsigned[i + 1..] == l.exponent.value.sign + l.exponent.value.digits
  {
    var mantissa := l.whole + PartText(l.fraction);
    assert forall i | 0 <= i < |mantissa| :: IsDigit(mantissa[i]) || mantissa[i] == '.';
    IndexAnySkips(mantissa, ExponentPartText(l.exponent), {'e', 'E'});
    if l.exponent.Some? {
      var e := l.exponent.value;
      Concat3([e.marker], e.sign, e.digits);
      assert UnsignedText(l) == mantissa + ([e.marker] + (e.sign + e.digits));
    }
  }

  lemma SplitAtPoint(l: Literal)
    requires ValidLiteral(l)
    ensures var mantissa := l.whole + PartText(l.fraction);
            match IndexAny(mantissa, {'.'})
            case None => l.fraction.None? && mantissa == l.whole
            case Some(i) =>
              && l.fraction.Some? && |mantissa| - i - 1 == |l.fraction.value|
              && mantissa[..i] + mantissa[i + 1..] == l.whole + l.fraction.value
  {
    var mantissa := l.whole + PartText(l.fraction);
    IndexAnySkips(l.whole, PartText(l.fraction), {'.'});
    if l.fraction.Some? {
      assert mantissa[|l.whole| + 1..] == l.fraction.value;
    }
  }

  lemma CanonicalExponentText(exponent: int)
    ensures ExponentPartText(CanonicalLiteral(false, "0", exponent).exponent) ==
            if exponent == 0 then "" else "e" + FormatInt(exponent)
  {
    if exponent < 0 {
      var n := FormatNat(-exponent);
      assert ['e'] + "-" + n == "e" + ("-" + n);
    } else if exponent > 0 {
      var n := FormatNat(exponent);
      assert ['e'] + "" + n == "e" + n;
    }
  }

  lemma CanonicalText(negative: bool, digits: string, exponent: int)
    ensures var signed := if negative then "-" + digits else digits;
            Text(CanonicalLiteral(negative, digits, exponent)) ==
            if exponent == 0 then signed else signed + "e" + FormatInt(exponent)
  {
    var l := CanonicalLiteral(negative, digits, exponent);
    var signed := if negative then "-" + digits else digits;
    var tail := ExponentPartText(l.exponent);
    CanonicalExponentText(exponent);
    assert UnsignedText(l) == digits + tail by {
      assert digits + "" == digits;
    }
    Concat3("-", digits, tail);
    assert Text(l) == signed + tail;
    Concat3(signed, "e", FormatInt(exponent));
    assert signed + "" == signed;
  }

  lemma SignOf(l: Literal)
    requires ValidLiteral(l)
    ensures Text(l) != "" && (Text(l)[0] == '-' <==> l.negative)
    ensures (if l.negative then Text(l)[1..] else Text(l)) == UnsignedText(l)
  {
    assert UnsignedText(l)[0] == l.whole[0];
  }

  method TakeExponent(unsigned: string, ghost l: Literal) returns (exponent: int, mantissa: string)
    requires ValidLiteral(l) && unsigned == UnsignedText(l)
    ensures exponent == ExponentValue(l) && mantissa == l.whole + PartText(l.fraction)
  {
    SplitAtMarker(l);
    exponent, mantissa := 0, unsigned;
    var marker := IndexAny(unsigned, {'e', 'E'});
    if marker.Some? {
      var tail := unsigned[marker.value + 1..];
      ParseExponent(l.exponent.value);
      assert tail == l.exponent.value.sign + l.exponent.value.digits;
      exponent := ParseInt(tail);
      mantissa := unsigned[..marker.value];
    }
  }

  method RemovePoint(mantissa: string, ghost l: Literal) returns (fractionDigits: nat, digits: string)
    requires ValidLiteral(l) && mantissa == l.whole + PartText(l.fraction)
    ensures fractionDigits == |FractionDigits(l)| && digits == l.whole + FractionDigits(l)
  {
    SplitAtPoint(l);
    fractionDigits, digits := 0, mantissa;
    var point := IndexAny(mantissa, {'.'});
    if point.Some? {
      fractionDigits := |mantissa| - point.value - 1;
      digits := mantissa[..point.value] + mantissa[point.value + 1..];
    }
  }

  method ReadScaledParts(input: string, ghost l: Literal) returns (r: Option<(bool, string, int)>)
    requires ValidLiteral(l) && input == Text(l)
    ensures r == ScaledParts(l)
  {
    SignOf(l);
    var negative := input[0] == '-';
    var unsigned := if negative then input[1..] else input;
    var exponent, mantissa := TakeExponent(unsigned, l);
    var fractionDigits, digits := RemovePoint(mantissa, l);
    if !InRange(exponent) || fractionDigits > MAX_EXPONENT || !InRange(exponent - fractionDigits) {
      return None;
    }
    return Some((negative, digits, exponent - fractionDigits));
  }

  /** The digit loop: it accepts exactly the acceptable numbers, and what it returns denotes the same rational. */
  method NormalizeJSONNumber(input: string) returns (r: Option<string>)
    ensures r == Normalize(input)
    ensures r.Some? <==> AcceptableNumber(input)
    ensures r.Some? ==>
              MatchesPattern(input) && MatchesPattern(r.value) && NumberValue(r.value) == NumberValue(input)
  {
    NormalizeAccepts(input);
    if Normalize(input).Some? {
      NormalizeExact(input);
    }
    if !MatchesPattern(input) {
      return None;
    }
    var parts := ReadScaledParts(input, LiteralOf(input));
    if parts.None? {
      return None;
    }
    var (negative, unsigned, exponent) := parts.value;
    var digits := TrimLeadingZeros(unsigned);
    if digits == "" {
      return Some("0");
    }
    ghost var all, scaled := digits, exponent;
    while |digits| > 1 && digits[|digits| - 1] == '0'
      invariant digits != "" && TrimTrailingZeros(digits) == TrimTrailingZeros(all)
      invariant exponent + |digits| == scaled + |all|
    {
      digits := digits[..|digits| - 1];
      exponent := exponent + 1;
    }
    if exponent < -MAX_EXPONENT || exponent > MAX_EXPONENT {
      return None;
    }
    CanonicalText(negative, digits, exponent);
    if negative {
      digits := "-" + digits;
    }
    if exponent == 0 {
      return Some(digits);
    }
    return Some(digits + "e" + FormatInt(exponent));
  }

  // ---------------------------------------------------------------- exactness

  lemma {:induction false} ScaledStep(x: real, n: int)
    ensures Scaled(x, n + 1) == 10.0 * Scaled(x, n)
  {
  }

  lemma {:induction false} ScaledTwice(x: real, a: int, b: int)
    ensures Scaled(Scaled(x, a), b) == Scaled(x, a + b)
    decreases if b < 0 then -b else b
  {
    if b > 0 {
      ScaledTwice(x, a, b - 1);
      ScaledStep(x, a + (b - 1));
    } else if b < 0 {
      ScaledTwice(x, a, b + 1);
      ScaledStep(x, a + b);
    }
  }

  lemma {:induction false} ScaledPlus(x: real, y: real, n: int)
    ensures Scaled(x + y, n) == Scaled(x, n) + Scaled(y, n)
    decreases if n < 0 then -n else n
  {
    if n > 0 {
      ScaledPlus(x, y, n - 1);
    } else if n < 0 {
      ScaledPlus(x, y, n + 1);
    }
  }

  lemma {:induction false} ScaledZero(n: int)
    ensures Scaled(0.0, n) == 0.0
    decreases if n < 0 then -n else n
  {
    if n > 0 {
      ScaledZero(n - 1);
    } else if n < 0 {
      ScaledZero(n + 1);
    }
  }

  lemma {:induction false} ScaledPositive(x: real, n: int)
    requires x > 0.0
    ensures Scaled(x, n) > 0.0
    decreases if n < 0 then -n else n
  {
    if n > 0 {
      ScaledPositive(x, n - 1);
    } else if n < 0 {
      ScaledPositive(x, n + 1);
    }
  }

  lemma {:induction false} DigitsConcat(a: string, b: string)
    requires AllDigits(a) && AllDigits(b)
    ensures DigitsValue(a + b) as real == Scaled(DigitsValue(a) as real, |b|) + DigitsValue(b) as real
  {
    if b == "" {
      assert a + b == a;
    } else {
      var front, last := b[..|b| - 1], DigitValue(b[|b| - 1]);
      assert (a + b)[..|a + b| - 1] == a + front;
      DigitsConcat(a, front);
      ScaledStep(DigitsValue(a) as real, |front|);
      assert DigitsValue(a + b) == 10 * DigitsValue(a + front) + last;
      assert DigitsValue(b) == 10 * DigitsValue(front) + last;
    }
  }

  lemma {:induction false} TrimLeadingKeepsValue(s: string)
    requires AllDigits(s)
    ensures var r := TrimLeadingZeros(s);
            AllDigits(r) && DigitsValue(r) == DigitsValue(s) && (r != "" ==> r[0] != '0')
  {
    if s != "" && s[0] == '0' {
      DigitsConcat(s[..1], s[1..]);
      assert s == s[..1] + s[1..];
      ScaledZero(|s| - 1);
      assert DigitsValue(s[..1]) == 0;
      TrimLeadingKeepsValue(s[1..]);
    }
  }

  lemma {:induction false} TrimTrailingShape(s: string)
    requires AllDigits(s) && s != ""
    ensures var r := TrimTrailingZeros(s);
            r != "" && AllDigits(r) && r[0] == s[0] && (|r| > 1 ==> r[|r| - 1] != '0')
  {
    if |s| > 1 && s[|s| - 1] == '0' {
      TrimTrailingShape(s[..|s| - 1]);
    }
  }

  lemma {:induction false} TrimTrailingKeepsValue(s: string)
    requires AllDigits(s) && s != ""
    ensures var r := TrimTrailingZeros(s);
            AllDigits(r) && DigitsValue(s) as real == Scaled(DigitsValue(r) as real, |s| - |r|)
  {
    if |s| > 1 && s[|s| - 1] == '0' {
      var front := s[..|s| - 1];
      var r := TrimTrailingZeros(front);
      TrimTrailingKeepsValue(front);
      ScaledStep(DigitsValue(r) as real, |front| - |r|);
      assert DigitsValue(s) == 10 * DigitsValue(front);
    }
  }

  lemma AllDigitsConcat(a: string, b: string)
    requires AllDigits(a) && AllDigits(b)
    ensures AllDigits(a + b)
  {
  }

  /** Moving the point behind the fraction and lowering the exponent keeps the magnitude. */
  lemma ScaledValue(w: real, f: real, n: int, e: int)
    ensures Scaled(w + Scaled(f, -n), e) == Scaled(Scaled(w, n) + f, e - n)
  {
    ScaledPlus(w, Scaled(f, -n), e);
    ScaledTwice(f, -n, e);
    ScaledPlus(Scaled(w, n), f, e - n);
    ScaledTwice(w, n, e - n);
  }

  /** The same number read as an integer times a power of ten. */
  ghost function PartsReal(l: Literal): real
    requires ValidLiteral(l)
  {
    AllDigitsConcat(l.whole, FractionDigits(l));
    Signed(l.negative,
           Scaled(DigitsValue(l.whole + FractionDigits(l)) as real, ExponentValue(l) - |FractionDigits(l)|))
  }

  lemma LiteralScaled(l: Literal)
    requires ValidLiteral(l)
    ensures LiteralValue(l) == PartsReal(l)
  {
    AllDigitsConcat(l.whole, FractionDigits(l));
    DigitsConcat(l.whole, FractionDigits(l));
    ScaledValue(DigitsValue(l.whole) as real, DigitsValue(FractionDigits(l)) as real, |FractionDigits(l)|,
                ExponentValue(l));
  }

  /** Digits and exponent that a canonical number may carry. */
  predicate Significant(digits: string) {
    digits != "" && AllDigits(digits) && digits[0] != '0' && digits[|digits| - 1] != '0'
  }

  lemma CanonicalReads(negative: bool, digits: string, exponent: int)
    requires ValidWhole(digits)
    ensures var l := CanonicalLiteral(negative, digits, exponent);
            ValidLiteral(l) && MatchesPattern(Text(l)) && LiteralOf(Text(l)) == l && ExponentValue(l) == exponent
  {
    var l := CanonicalLiteral(negative, digits, exponent);
    ScanText(l, "");
    assert Text(l) + "" == Text(l);
  }

  lemma CanonicalValue(negative: bool, digits: string, exponent: int)
    requires ValidWhole(digits)
    ensures var l := CanonicalLiteral(negative, digits, exponent);
            ValidLiteral(l) && LiteralValue(l) == Signed(negative, Scaled(DigitsValue(digits) as real, exponent))
  {
    CanonicalReads(negative, digits, exponent);
    assert digits + "" == digits;
    LiteralScaled(CanonicalLiteral(negative, digits, exponent));
  }

  /** Whatever Normalize returns is spelled canonically: "0", or significant digits with an
      exponent in range. */
  ghost predicate CanonicalShape(out: string, negative: bool, digits: string, exponent: int) {
    || (out == "0" && digits == "0" && !negative && exponent == 0)
    || (Significant(digits) && InRange(exponent) && out == Text(CanonicalLiteral(negative, digits, exponent)))
  }

  lemma SignificantValue(digits: string)
    requires Significant(digits)
    ensures DigitsValue(digits) > 0 && DigitsValue(digits) % 10 != 0
  {
  }

  lemma ZeroText()
    ensures "0" == Text(CanonicalLiteral(false, "0", 0))
  {
  }

  /** A canonical spelling together with the sign, digits and exponent it spells. */
  datatype Canonical = Canonical(negative: bool, digits: string, exponent: int)

  ghost predicate Spells(out: string, c: Canonical) {
    CanonicalShape(out, c.negative, c.digits, c.exponent)
  }

  ghost function CanonicalReal(c: Canonical): real
    requires AllDigits(c.digits)
  {
    Signed(c.negative, Scaled(DigitsValue(c.digits) as real, c.exponent))
  }

  lemma FormatPartsExact(negative: bool, unsigned: string, scaled: int) returns (c: Canonical)
    requires AllDigits(unsigned) && FormatParts(negative, unsigned, scaled).Some?
    ensures Spells(FormatParts(negative, unsigned, scaled).value, c) && ValidWhole(c.digits)
    ensures CanonicalReal(c) == Signed(negative, Scaled(DigitsValue(unsigned) as real, scaled))
  {
    var all := TrimLeadingZeros(unsigned);
    TrimLeadingKeepsValue(unsigned);
    if all == "" {
      ScaledZero(scaled);
      c := Canonical(false, "0", 0);
    } else {
      TrimTrailingShape(all);
      TrimTrailingKeepsValue(all);
      var digits := TrimTrailingZeros(all);
      c := Canonical(negative, digits, scaled + |all| - |digits|);
      ScaledTwice(DigitsValue(digits) as real, |all| - |digits|, scaled);
    }
  }

  lemma NormalizeLiteralSteps(l: Literal)
    requires ValidLiteral(l) && NormalizeLiteral(l).Some?
    ensures NormalizeLiteral(l) ==
            FormatParts(l.negative, l.whole + FractionDigits(l), ExponentValue(l) - |FractionDigits(l)|)
  {
  }

  lemma NormalizeLiteralParts(l: Literal) returns (c: Canonical)
    requires ValidLiteral(l) && NormalizeLiteral(l).Some?
    ensures Spells(NormalizeLiteral(l).value, c) && ValidWhole(c.digits)
    ensures CanonicalReal(c) == PartsReal(l)
  {
    hide FormatParts, Spells, Scaled;
    AllDigitsConcat(l.whole, FractionDigits(l));
    NormalizeLiteralSteps(l);
    c := FormatPartsExact(l.negative, l.whole + FractionDigits(l), ExponentValue(l) - |FractionDigits(l)|);
  }

  lemma NormalizeParts(input: string) returns (c: Canonical)
    requires Normalize(input).Some?
    ensures MatchesPattern(input)
    ensures Spells(Normalize(input).value, c) && ValidWhole(c.digits)
    ensures CanonicalReal(c) == NumberValue(input)
  {
    c := NormalizeLiteralParts(LiteralOf(input));
    LiteralScaled(LiteralOf(input));
  }

  /** Every exponent met on the way to an accepted result, while the point is removed and while trailing
      zeros are trimmed, stays within one million. */
  lemma ExponentsInRange(input: string)
    requires Normalize(input).Some?
    ensures MatchesPattern(input)
    ensures var l := LiteralOf(input);
            var scaled := ExponentValue(l) - |FractionDigits(l)|;
            var digits := TrimLeadingZeros(l.whole + FractionDigits(l));
            && InRange(ExponentValue(l)) && InRange(scaled)
            && forall e: int {:trigger InRange(e)} ::
                 digits != "" && scaled <= e <= scaled + |digits| - |TrimTrailingZeros(digits)| ==> InRange(e)
  {
    NormalizeLiteralSteps(LiteralOf(input));
  }

  lemma SpelledValue(out: string, c: Canonical)
    requires Spells(out, c)
    ensures ValidWhole(c.digits) && MatchesPattern(out) && NumberValue(out) == CanonicalReal(c)
    ensures LiteralOf(out) == CanonicalLiteral(c.negative, c.digits, c.exponent)
  {
    ZeroText();
    CanonicalReads(c.negative, c.digits, c.exponent);
    CanonicalValue(c.negative, c.digits, c.exponent);
  }

  /** Normalization is exact: a number and its normal form denote the same rational. */
  lemma NormalizeExact(input: string)
    requires Normalize(input).Some?
    ensures MatchesPattern(input) && MatchesPattern(Normalize(input).value)
    ensures NumberValue(Normalize(input).value) == NumberValue(input)
  {
    var c := NormalizeParts(input);
    SpelledValue(Normalize(input).value, c);
  }

  lemma {:induction false} TrimFixed(digits: string)
    requires Significant(digits)
    ensures TrimLeadingZeros(digits) == digits && TrimTrailingZeros(digits) == digits
  {
  }

  /** The normal form is accepted again and is its own normal form. */
  lemma NormalizeFixedPoint(input: string)
    requires Normalize(input).Some?
    ensures Normalize(Normalize(input).value) == Normalize(input)
  {
    var out := Normalize(input).value;
    var c := NormalizeParts(input);
    SpelledValue(out, c);
    var l := CanonicalLiteral(c.negative, c.digits, c.exponent);
    CanonicalReads(c.negative, c.digits, c.exponent);
    assert ScaledParts(l) == Some((c.negative, c.digits, c.exponent)) by {
      assert c.digits + "" == c.digits;
    }
    if c.digits != "0" {
      TrimFixed(c.digits);
    } else {
      assert TrimLeadingZeros("0") == TrimLeadingZeros("");
    }
    assert FormatParts(c.negative, c.digits, c.exponent) == Some(out);
  }

  lemma {:induction false} DigitsUnique(a: string, b: string)
    requires AllDigits(a) && AllDigits(b) && DigitsValue(a) == DigitsValue(b)
    requires (a != "" ==> a[0] != '0') && (b != "" ==> b[0] != '0')
    ensures a == b
  {
    if a == "" || b == "" {
      DigitsPositive(a + b);
      assert a + b == if a == "" then b else a;
    } else {
      var x, y := a[..|a| - 1], b[..|b| - 1];
      DigitsUnique(x, y);
      assert a == x + [a[|a| - 1]] && b == y + [b[|b| - 1]];
    }
  }

  lemma {:induction false} DigitsPositive(a: string)
    requires AllDigits(a) && (a != "" ==> a[0] != '0')
    ensures a != "" ==> DigitsValue(a) > 0
  {
    if |a| > 1 {
      DigitsPositive(a[..|a| - 1]);
    }
  }

  /** A number without trailing zero digits cannot equal another one times a positive power of ten. */
  lemma ExponentsAgree(m: nat, e: int, n: nat, f: int)
    requires m % 10 != 0 && e < f
    ensures Scaled(m as real, e) != Scaled(n as real, f)
  {
    ScaledTwice(n as real, f - e, e);
    var k := ScaledNat(n, f - e);
    if Scaled(m as real, e) == Scaled(n as real, f) {
      ScaledInjective(m as real, k as real, e);
    }
  }

  lemma {:induction false} ScaledNat(n: nat, k: int) returns (v: nat)
    requires k > 0
    ensures v % 10 == 0 && Scaled(n as real, k) == v as real
  {
    if k == 1 {
      v := 10 * n;
    } else {
      var w := ScaledNat(n, k - 1);
      v := 10 * w;
    }
  }

  lemma {:induction false} ScaledInjective(x: real, y: real, n: int)
    requires Scaled(x, n) == Scaled(y, n)
    ensures x == y
    decreases if n < 0 then -n else n
  {
    if n > 0 {
      ScaledInjective(x, y, n - 1);
    } else if n < 0 {
      ScaledInjective(x, y, n + 1);
    }
  }

  /** Canonical parts of equal rationals are equal. */
  lemma CanonicalUnique(x: string, c: Canonical, y: string, d: Canonical)
    requires Spells(x, c) && Spells(y, d) && ValidWhole(c.digits) && ValidWhole(d.digits)
    requires CanonicalReal(c) == CanonicalReal(d)
    ensures x == y
  {
    var m, n := DigitsValue(c.digits), DigitsValue(d.digits);
    if c.digits != "0" {
      DigitsPositive(c.digits);
      ScaledPositive(m as real, c.exponent);
    }
    if d.digits != "0" {
      DigitsPositive(d.digits);
      ScaledPositive(n as real, d.exponent);
    }
    if c.digits != "0" && d.digits != "0" {
      SignificantValue(c.digits);
      SignificantValue(d.digits);
      if c.exponent < d.exponent {
        ExponentsAgree(m, c.exponent, n, d.exponent);
      } else if d.exponent < c.exponent {
        ExponentsAgree(n, d.exponent, m, c.exponent);
      } else {
        ScaledInjective(m as real, n as real, c.exponent);
        DigitsUnique(c.digits, d.digits);
      }
    }
  }

  /** Two accepted numbers normalize to the same text exactly when they denote the same rational. */
  lemma NormalizeUnique(a: string, b: string)
    requires Normalize(a).Some? && Normalize(b).Some?
    ensures MatchesPattern(a) && MatchesPattern(b)
    ensures Normalize(a) == Normalize(b) <==> NumberValue(a) == NumberValue(b)
  {
    var c := NormalizeParts(a);
    var d := NormalizeParts(b);
    SpelledValue(Normalize(a).value, c);
    SpelledValue(Normalize(b).value, d);
    if NumberValue(a) == NumberValue(b) {
      CanonicalUnique(Normalize(a).value, c, Normalize(b).value, d);
    }
  }

  // ---------------------------------------------------------------- which numbers are accepted

  /** Up to sign, x is a whole number not divisible by ten times a power of ten. */
  ghost predicate Measures(x: real, m: nat, e: int) {
    m % 10 != 0 && (x == Scaled(m as real, e) || -x == Scaled(m as real, e))
  }

  /** A literal whose exponent as written, and as it stands once the point is removed, is within a million, with at
      most a million fraction digits, and which denotes zero or, up to sign, a whole number not divisible by ten
      times a power of ten within that range. */
  ghost predicate AcceptableLiteral(l: Literal)
    requires ValidLiteral(l)
  {
    && -1_000_000 <= ExponentValue(l) <= 1_000_000
    && |FractionDigits(l)| <= 1_000_000
    && -1_000_000 <= ExponentValue(l) - |FractionDigits(l)| <= 1_000_000
    && (LiteralValue(l) == 0.0
        || exists m: nat, e: int :: Measures(LiteralValue(l), m, e) && -1_000_000 <= e <= 1_000_000)
  }

  /** A text that spells such a literal. */
  ghost predicate AcceptableNumber(s: string) {
    exists l :: ValidLiteral(l) && Text(l) == s && AcceptableLiteral(l)
  }

  lemma SpelledOnce(s: string, l: Literal)
    requires ValidLiteral(l) && Text(l) == s
    ensures MatchesPattern(s) && LiteralOf(s) == l
  {
    ScanText(l, "");
    assert Text(l) + "" == Text(l);
  }

  /** The exponent of a whole number not divisible by ten is determined by its value, so it is the one that
      trimming reaches. */
  lemma TrimmedExponentDecides(negative: bool, unsigned: string, scaled: int, x: real)
    requires AllDigits(unsigned) && -1_000_000 <= scaled <= 1_000_000
    requires x == Signed(negative, Scaled(DigitsValue(unsigned) as real, scaled))
    ensures FormatParts(negative, unsigned, scaled).Some? <==>
            x == 0.0 || exists m: nat, e: int :: Measures(x, m, e) && -1_000_000 <= e <= 1_000_000
  {
    var all := TrimLeadingZeros(unsigned);
    TrimLeadingKeepsValue(unsigned);
    if all == "" {
      ScaledZero(scaled);
    } else {
      TrimTrailingShape(all);
      TrimTrailingKeepsValue(all);
      var digits := TrimTrailingZeros(all);
      var k, exponent := DigitsValue(digits), scaled + |all| - |digits|;
      ScaledTwice(k as real, |all| - |digits|, scaled);
      SignificantValue(digits);
      ScaledPositive(k as real, exponent);
      assert Measures(x, k, exponent);
      forall m: nat, e: int | Measures(x, m, e) ensures e == exponent
      {
        ScaledPositive(m as real, e);
        if e < exponent {
          ExponentsAgree(m, e, k, exponent);
        } else if exponent < e {
          ExponentsAgree(k, exponent, m, e);
        }
      }
    }
  }

  /** Which texts are normalized: exactly those that spell an acceptable literal. */
  lemma NormalizeAccepts(s: string)
    ensures Normalize(s).Some? <==> AcceptableNumber(s)
  {
    if MatchesPattern(s) {
      var l := LiteralOf(s);
      forall k | ValidLiteral(k) && Text(k) == s ensures k == l {
        SpelledOnce(s, k);
      }
      LiteralDecides(l);
    } else {
      forall k | ValidLiteral(k) && Text(k) == s ensures false {
        SpelledOnce(s, k);
      }
    }
  }

  lemma LiteralDecides(l: Literal)
    requires ValidLiteral(l)
    ensures NormalizeLiteral(l).Some? <==> AcceptableLiteral(l)
  {
    hide FormatParts, LiteralValue, Scaled;
    AllDigitsConcat(l.whole, FractionDigits(l));
    LiteralScaled(l);
    var scaled := ExponentValue(l) - |FractionDigits(l)|;
    if -1_000_000 <= scaled <= 1_000_000 {
      TrimmedExponentDecides(l.negative, l.whole + FractionDigits(l), scaled, LiteralValue(l));
    }
  }
}
