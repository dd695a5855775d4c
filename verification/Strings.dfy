/**
  JSON string literals (sections 7 and 8.2 of RFC 8259): the encoder's escaping, the
  decoder's unescaping with its U+FFFD substitution, and the encoding scan that runs
  before decoding (internal/canonicalaction/action.go, validateJSONStringEncoding).

  Text is a sequence of Unicode scalar values; module Utf8 relates it to bytes.
 */
module Strings {
  import opened Wrappers

  const REPLACEMENT: char := '\U{FFFD}'

  // ---------------------------------------------------------------- hexadecimal

  function HexDigit(n: nat): char
    requires n < 16
  {
    if n < 10 then ('0' as int + n) as char else ('a' as int + (n - 10)) as char
  }

  predicate IsHex(c: char) { '0' <= c <= '9' || 'a' <= c <= 'f' || 'A' <= c <= 'F' }

  function HexValue(c: char): (n: nat)
    requires IsHex(c)
    ensures n < 16
  {
    if c <= '9' then c as int - '0' as int
    else if c <= 'F' then c as int - 'A' as int + 10
    else c as int - 'a' as int + 10
  }

  /** The UTF-16 unit spelled by the four hexadecimal digits at s[from..], if they are there. */
  function Hex4(s: string, from: nat): (unit: Option<nat>)
    ensures unit.Some? ==> from + 4 <= |s| && unit.value < 0x10000
  {
    if from + 4 <= |s| && IsHex(s[from]) && IsHex(s[from + 1]) && IsHex(s[from + 2]) && IsHex(s[from + 3]) then
      Some(0x1000 * HexValue(s[from]) + 0x100 * HexValue(s[from + 1]) + 0x10 * HexValue(s[from + 2])
           + HexValue(s[from + 3]))
    else None
  }

  predicate IsHigh(unit: nat) { 0xD800 <= unit <= 0xDBFF }

  predicate IsLow(unit: nat) { 0xDC00 <= unit <= 0xDFFF }

  /** The scalar value of a surrogate pair. */
  function Combine(high: nat, low: nat): char
    requires IsHigh(high) && IsLow(low)
  {
    (0x10000 + 0x400 * (high - 0xD800) + (low - 0xDC00)) as char
  }

  /** The units that are no scalar values are the two kinds of surrogates, and their pairs are the scalar values beyond
      the first plane, each once. */
  lemma SurrogatesExact(unit: nat, high: nat, low: nat, c: char)
    requires unit < 0x10000
    ensures IsHigh(unit) || IsLow(unit) <==> 0xD800 <= unit < 0xE000
    ensures !(IsHigh(unit) && IsLow(unit))
    ensures c as int >= 0x10000 ==>
              var n := c as int - 0x10000;
              IsHigh(high) && IsLow(low) && Combine(high, low) == c <==>
              high == 0xD800 + n / 0x400 && low == 0xDC00 + n % 0x400
    ensures IsHigh(high) && IsLow(low) ==> Combine(high, low) as int >= 0x10000
  {
  }

  // ---------------------------------------------------------------- encoder

  function UnicodeEscape(c: char): string
    requires c as int < 0x10000
  {
    var n := c as int;
    ['\\', 'u', HexDigit(n / 0x1000), HexDigit(n / 0x100 % 16), HexDigit(n / 0x10 % 16), HexDigit(n % 16)]
  }

  function ShortEscape(c: char): Option<char> {
    match c
    case '"' => Some('"')
    case '\\' => Some('\\')
    case '\U{8}' => Some('b')
    case '\U{C}' => Some('f')
    case '\n' => Some('n')
    case '\r' => Some('r')
    case '\t' => Some('t')
    case _ => None
  }

  predicate NeedsUnicodeEscape(c: char) {
    c < ' ' || c == '<' || c == '>' || c == '&' || c == '\U{2028}' || c == '\U{2029}'
  }

  /** One character as encoding/json writes it inside a string literal. */
  function EscapeChar(c: char): string {
    if ShortEscape(c).Some? then ['\\', ShortEscape(c).value]
    else if NeedsUnicodeEscape(c) then UnicodeEscape(c)
    else [c]
  }

  /** What is escaped, and how: seven characters by one letter, the other controls, the three of HTML and the two
      separators by their four lower-case hexadecimal digits, and nothing else. */
  lemma EscapesExact(c: char, e: char)
    ensures EscapeChar(c) == [c] <==> c >= ' ' && c !in {'"', '\\', '<', '>', '&', '\U{2028}', '\U{2029}'}
    ensures EscapeChar(c) == ['\\', e] <==>
            (c, e) in {('"', '"'), ('\\', '\\'), ('\U{8}', 'b'), ('\U{C}', 'f'), ('\n', 'n'), ('\r', 'r'), ('\t', 't')}
    ensures |EscapeChar(c)| > 2 ==>
              && |EscapeChar(c)| == 6 && EscapeChar(c)[..2] == "\\u" && Hex4(EscapeChar(c), 2) == Some(c as int)
              && forall i | 2 <= i < 6 :: '0' <= EscapeChar(c)[i] <= '9' || 'a' <= EscapeChar(c)[i] <= 'f'
  {
    if ShortEscape(c).None? && NeedsUnicodeEscape(c) {
      var n := c as int;
      assert n == 0x1000 * (n / 0x1000) + 0x100 * (n / 0x100 % 16) + 0x10 * (n / 0x10 % 16) + n % 16;
    }
  }

  function Escape(s: string): string {
    if s == "" then "" else EscapeChar(s[0]) + Escape(s[1..])
  }

  function Quote(s: string): string { "\"" + Escape(s) + "\"" }

  // ---------------------------------------------------------------- decoder

  /** One decoded character: the text it came from has the given size, and lossy says that an
      unpaired surrogate was replaced. */
  datatype Unit = Unit(c: char, lossy: bool, size: nat)

  function LongEscape(e: char): Option<char> {
    match e
    case '"' => Some('"')
    case '\\' => Some('\\')
    case '/' => Some('/')
    case 'b' => Some('\U{8}')
    case 'f' => Some('\U{C}')
    case 'n' => Some('\n')
    case 'r' => Some('\r')
    case 't' => Some('\t')
    case _ => None
  }

  function ReadUnicodeEscape(s: string): (unit: Option<Unit>)
    requires |s| >= 2
    ensures unit.Some? ==> 6 <= unit.value.size <= |s|
  {
    match Hex4(s, 2)
    case None => None
    case Some(first) =>
      if !IsHigh(first) && !IsLow(first) then Some(Unit(first as char, false, 6))
      else
        var second := if |s| > 8 && s[6] == '\\' && s[7] == 'u' then Hex4(s, 8) else None;
        if IsHigh(first) && second.Some? && IsLow(second.value)
        then Some(Unit(Combine(first, second.value), false, 12))
        else Some(Unit(REPLACEMENT, true, 6))
  }

  function ReadUnit(s: string): (unit: Option<Unit>)
    requires s != "" && s[0] != '"'
    ensures unit.Some? ==> 1 <= unit.value.size <= |s|
  {
    if s[0] < ' ' then None
    else if s[0] != '\\' then Some(Unit(s[0], false, 1))
    else if |s| == 1 then None
    else if s[1] == 'u' then ReadUnicodeEscape(s)
    else match LongEscape(s[1]) case None => None case Some(c) => Some(Unit(c, false, 2))
  }

  datatype Body = Body(content: string, lossy: bool, rest: string)

  /** The content of a string literal whose opening quote has been read, up to its closing quote. */
  function ReadBody(s: string): (body: Option<Body>)
    ensures body.Some? ==> |body.value.rest| < |s|
    decreases |s|
  {
    if s == "" then None
    else if s[0] == '"' then Some(Body("", false, s[1..]))
    else match ReadUnit(s)
      case None => None
      case Some(unit) =>
        match ReadBody(s[unit.size..])
        case None => None
        case Some(tail) => Some(Body([unit.c] + tail.content, unit.lossy || tail.lossy, tail.rest))
  }

  // ---------------------------------------------------------------- encoding scan

  /** The scan outside any string literal: true when it accepts the rest of the input. */
  predicate ScanOutside(s: string)
    decreases |s|
  {
    s == "" || if s[0] == '"' then ScanInside(s[1..]) else ScanOutside(s[1..])
  }

  /** The scan inside a string literal.  An unterminated literal is left to the parser. */
  predicate ScanInside(s: string)
    decreases |s|
  {
    if s == "" then true
    else if s[0] == '"' then ScanOutside(s[1..])
    else if s[0] != '\\' then ScanInside(s[1..])
    else if |s| == 1 then false
    else if s[1] != 'u' then ScanInside(s[2..])
    else match Hex4(s, 2)
      case None => false
      case Some(first) =>
        if IsHigh(first) then
          |s| > 8 && s[6] == '\\' && s[7] == 'u' &&
          match Hex4(s, 8) case None => false case Some(second) => IsLow(second) && ScanInside(s[12..])
        else !IsLow(first) && ScanInside(s[6..])
  }

  // ---------------------------------------------------------------- lemmas

  lemma HexDigitValue(n: nat)
    requires n < 16
    ensures IsHex(HexDigit(n)) && HexValue(HexDigit(n)) == n
  {
  }

  lemma FourNibbles(n: nat)
    requires n < 0x10000
    ensures n / 0x1000 < 16
    ensures n == 0x1000 * (n / 0x1000) + 0x100 * (n / 0x100 % 16) + 0x10 * (n / 0x10 % 16) + n % 16
  {
    assert n / 0x100 == (n / 0x10) / 16 && n / 0x1000 == (n / 0x100) / 16;
  }

  lemma Hex4Exactly(s: string, from: nat)
    ensures Hex4(s, from).Some? <==> from + 4 <= |s| && forall i | from <= i < from + 4 :: IsHex(s[i])
  {
    assert from + 4 <= |s| && Hex4(s, from).None? ==> exists i :: from <= i < from + 4 && !IsHex(s[i]) by {
      if from + 4 <= |s| {
        assert IsHex(s[from]) && IsHex(s[from + 1]) && IsHex(s[from + 2]) && IsHex(s[from + 3]) ==> Hex4(s, from).Some?;
      }
    }
  }

  function LowerHex(c: char): char {
    if 'A' <= c <= 'F' then (c as int + 32) as char else c
  }

  /** The i-th of the four hexadecimal digits of a UTF-16 unit, from the left. */
  function Nibble(n: nat, i: nat): (digit: nat)
    ensures digit < 16
  {
    if i == 0 then n / 0x1000 % 16 else if i == 1 then n / 0x100 % 16 else if i == 2 then n / 0x10 % 16 else n % 16
  }

  lemma NibblesOf(a: nat, b: nat, d: nat, e: nat)
    requires a < 16 && b < 16 && d < 16 && e < 16
    ensures var n := 0x1000 * a + 0x100 * b + 0x10 * d + e;
            Nibble(n, 0) == a && Nibble(n, 1) == b && Nibble(n, 2) == d && Nibble(n, 3) == e
  {
    var n := 0x1000 * a + 0x100 * b + 0x10 * d + e;
    assert n / 0x10 == 0x100 * a + 0x10 * b + d;
    assert n / 0x100 == 0x10 * a + b;
    assert n / 0x1000 == a;
  }

  /** The digits of the unit read are the digits it was read from, up to their case. */
  lemma UnitDigits(s: string, from: nat)
    requires Hex4(s, from).Some?
    ensures forall i | 0 <= i < 4 :: LowerHex(s[from + i]) == HexDigit(Nibble(Hex4(s, from).value, i))
  {
    NibblesOf(HexValue(s[from]), HexValue(s[from + 1]), HexValue(s[from + 2]), HexValue(s[from + 3]));
    var n := Hex4(s, from).value;
    forall i | 0 <= i < 4 ensures LowerHex(s[from + i]) == HexDigit(Nibble(n, i)) {
      assert Nibble(n, i) == HexValue(s[from + i]);
      HexCase(s[from + i]);
    }
  }

  lemma HexCase(c: char)
    requires IsHex(c)
    ensures HexDigit(HexValue(c)) == LowerHex(c)
  {
  }

  lemma HexRoundTrip(c: char, tail: string)
    requires c as int < 0x10000
    ensures Hex4(UnicodeEscape(c) + tail, 2) == Some(c as int)
  {
    var n: nat := c as int;
    FourNibbles(n);
    var a, b, d, e := n / 0x1000, n / 0x100 % 16, n / 0x10 % 16, n % 16;
    HexDigitValue(a);
    HexDigitValue(b);
    HexDigitValue(d);
    HexDigitValue(e);
    var s := UnicodeEscape(c) + tail;
    assert s[2] == HexDigit(a) && s[3] == HexDigit(b) && s[4] == HexDigit(d) && s[5] == HexDigit(e);
  }

  lemma ReadEscapedChar(c: char, tail: string)
    ensures var s := EscapeChar(c) + tail;
            s != "" && s[0] != '"' && ReadUnit(s) == Some(Unit(c, false, |EscapeChar(c)|))
  {
    if ShortEscape(c).None? && NeedsUnicodeEscape(c) {
      HexRoundTrip(c, tail);
    }
  }

  /** Decoding what the encoder wrote gives back the string, without substitution. */
  lemma {:induction false} ReadEscaped(content: string, rest: string)
    ensures ReadBody(Escape(content) + "\"" + rest) == Some(Body(content, false, rest))
  {
    var s := Escape(content) + "\"" + rest;
    if content == "" {
      assert s == "\"" + rest;
    } else {
      var first, others := EscapeChar(content[0]), Escape(content[1..]) + "\"" + rest;
      assert s == first + others;
      ReadEscapedChar(content[0], others);
      assert s[|first|..] == others;
      ReadEscaped(content[1..], rest);
      assert [content[0]] + content[1..] == content;
    }
  }

  /** On a literal the decoder accepts, the scan ends at the same closing quote and accepts exactly
      when no surrogate had to be replaced. */
  lemma {:induction false} ScanAgreesWithDecoder(s: string)
    requires ReadBody(s).Some?
    ensures var body := ReadBody(s).value; ScanInside(s) <==> !body.lossy && ScanOutside(body.rest)
    decreases |s|
  {
    if s[0] != '"' {
      var unit := ReadUnit(s).value;
      ScanAgreesWithDecoder(s[unit.size..]);
    }
  }

  // ---------------------------------------------------------------- the loops

  /** The number that digits spell in base 16. */
  function HexNumber(digits: string): (n: nat)
    requires forall i | 0 <= i < |digits| :: IsHex(digits[i])
  {
    if digits == "" then 0 else 16 * HexNumber(digits[..|digits| - 1]) + HexValue(digits[|digits| - 1])
  }

  lemma NoDigits()
    ensures HexNumber("") == 0
  {
  }

  lemma HexNumberStep(digits: string, c: char)
    requires (forall i | 0 <= i < |digits| :: IsHex(digits[i])) && IsHex(c)
    ensures HexNumber(digits + [c]) == 16 * HexNumber(digits) + HexValue(c)
  {
    assert (digits + [c])[..|digits|] == digits;
  }

  lemma Hex4IsNumber(s: string, from: nat)
    requires from + 4 <= |s| && forall i | from <= i < from + 4 :: IsHex(s[i])
    ensures Hex4(s, from) == Some(HexNumber(s[from..from + 4]))
  {
    assert s[from..from + 4] == (([s[from]] + [s[from + 1]]) + [s[from + 2]]) + [s[from + 3]];
    assert [s[from]] == "" + [s[from]];
    HexNumberStep("", s[from]);
    HexNumberStep([s[from]], s[from + 1]);
    HexNumberStep([s[from]] + [s[from + 1]], s[from + 2]);
    HexNumberStep([s[from]] + [s[from + 1]] + [s[from + 2]], s[from + 3]);
  }

  /** A unit is read exactly when four hexadecimal digits follow the 'u' at the given index; formatted
      again, it is those digits in lower case, and the next index is the one after them. */
  method ReadUTF16Escape(input: string, index: nat) returns (unit: Option<nat>, next: nat)
    requires index < |input|
    ensures unit.Some? <==> index + 5 <= |input| && forall i | index < i < index + 5 :: IsHex(input[i])
    ensures unit.Some? ==> unit.value < 0x10000
    ensures unit.Some? ==>
      forall i | 0 <= i < 4 :: LowerHex(input[index + 1 + i]) == HexDigit(Nibble(unit.value, i))
    ensures next == if unit.Some? then index + 5 else index
    ensures unit == Hex4(input, index + 1)
  {
    hide Hex4, HexNumber, Nibble, LowerHex, HexDigit, HexValue, IsHex;
    Hex4Exactly(input, index + 1);
    if index + 5 > |input| {
      return None, index;
    }
    assert input[index + 1..index + 1] == "";
    NoDigits();
    var value: nat, i: nat := 0, 0;
    while i < 4
      invariant i <= 4
      invariant forall k | index < k <= index + i :: IsHex(input[k])
      invariant value == HexNumber(input[index + 1..index + 1 + i])
    {
      var c := input[index + 1 + i];
      if !IsHex(c) {
        return None, index;
      }
      assert input[index + 1..index + 2 + i] == input[index + 1..index + 1 + i] + [c];
      HexNumberStep(input[index + 1..index + 1 + i], c);
      value := 16 * value + HexValue(c);
      i := i + 1;
    }
    Hex4IsNumber(input, index + 1);
    UnitDigits(input, index + 1);
    return Some(value), index + 5;
  }

  lemma Hex4Drop(s: string, k: nat, from: nat)
    requires k <= |s|
    ensures Hex4(s[k..], from) == Hex4(s, k + from)
  {
  }

  /** One escape inside a literal, from the backslash at the given index. */
  method ValidateEscape(input: string, start: nat) returns (ok: bool, index: nat)
    requires start < |input| && input[start] == '\\'
    ensures ok ==> start < index <= |input|
    ensures ScanInside(input[start..]) == (ok && ScanInside(input[index..]))
  {
    ghost var s := input[start..];
    index := start + 1;
    if index >= |input| {
      return false, index;
    }
    if input[index] != 'u' {
      assert s[2..] == input[start + 2..];
      return true, start + 2;
    }
    Hex4Drop(input, start, 2);
    Hex4Drop(input, start, 8);
    var first, next := ReadUTF16Escape(input, index);
    if first.None? {
      return false, index;
    }
    index := next;
    assert s[6..] == input[index..];
    if 0xD800 <= first.value <= 0xDBFF {
      if index + 2 >= |input| || input[index] != '\\' || input[index + 1] != 'u' {
        return false, index;
      }
      var second, afterSecond := ReadUTF16Escape(input, index + 1);
      if second.None? || second.value < 0xDC00 || second.value > 0xDFFF {
        return false, index;
      }
      assert s[12..] == input[afterSecond..];
      return true, afterSecond;
    }
    return !(0xDC00 <= first.value <= 0xDFFF), index;
  }

  method ValidateJSONStringEncoding(input: string) returns (ok: bool)
    ensures ok == ScanOutside(input)
  {
    var index := 0;
    assert input[0..] == input;
    while index < |input|
      invariant index <= |input|
      invariant ScanOutside(input) == ScanOutside(input[index..])
    {
      assert input[index..][1..] == input[index + 1..];
      if input[index] != '"' {
        index := index + 1;
        continue;
      }
      index := index + 1;
      while index < |input| && input[index] != '"'
        invariant index <= |input|
        invariant ScanOutside(input) == ScanInside(input[index..])
      {
        if input[index] != '\\' {
          assert input[index..][1..] == input[index + 1..];
          index := index + 1;
          continue;
        }
        var valid, next := ValidateEscape(input, index);
        if !valid {
          return false;
        }
        index := next;
      }
      if index < |input| {
        assert input[index..][1..] == input[index + 1..];
        index := index + 1;
      }
    }
    return true;
  }
}
