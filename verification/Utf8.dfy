/**
  UTF-8, so that the model's text (Unicode scalar values) and the program's bytes can be
  exchanged: decoding is the exact inverse of encoding, and sorting encoded strings byte by
  byte is sorting by scalar value.
 */
module Utf8 {
  import opened Wrappers

  type Byte = b: int | 0 <= b < 256

  // ---------------------------------------------------------------- one character

  function EncodeChar(c: char): seq<Byte> {
    var n := c as int;
    if n < 0x80 then [n]
    else if n < 0x800 then [0xC0 + n / 0x40, 0x80 + n % 0x40]
    else if n < 0x10000 then [0xE0 + n / 0x1000, 0x80 + n / 0x40 % 0x40, 0x80 + n % 0x40]
    else [0xF0 + n / 0x40000, 0x80 + n / 0x1000 % 0x40, 0x80 + n / 0x40 % 0x40, 0x80 + n % 0x40]
  }

  predicate Continues(b: seq<Byte>, i: nat) { i < |b| && 0x80 <= b[i] < 0xC0 }

  /** The six payload bits of a continuation byte. */
  function Bits(b: Byte): int {
    var n: int := b;
    n - 0x80
  }

  predicate IsScalar(n: int) { 0 <= n < 0xD800 || 0xE000 <= n < 0x11_0000 }

  function Scalar(n: int, size: nat): Option<(char, nat)> {
    if IsScalar(n) then Some((n as char, size)) else None
  }

  /** The character at the front of b and how many bytes it takes; None for a malformed,
      overlong, surrogate or out-of-range sequence. */
  function DecodeChar(b: seq<Byte>): (r: Option<(char, nat)>)
    requires b != []
    ensures r.Some? ==> 0 < r.value.1 <= |b|
  {
    var lead: int := b[0];
    if lead < 0x80 then Some((lead as char, 1))
    else if 0xC2 <= lead < 0xE0 && Continues(b, 1) then
      Scalar(0x40 * (lead - 0xC0) + Bits(b[1]), 2)
    else if 0xE0 <= lead < 0xF0 && Continues(b, 1) && Continues(b, 2) then
      var n := 0x40 * (0x40 * (lead - 0xE0) + Bits(b[1])) + Bits(b[2]);
      if n < 0x800 then None else Scalar(n, 3)
    else if 0xF0 <= lead < 0xF5 && Continues(b, 1) && Continues(b, 2) && Continues(b, 3) then
      var n := 0x40 * (0x40 * (0x40 * (lead - 0xF0) + Bits(b[1])) + Bits(b[2])) + Bits(b[3]);
      if n < 0x10000 then None else Scalar(n, 4)
    else None
  }

  lemma DecodeEncodedChar(c: char, rest: seq<Byte>)
    ensures DecodeChar(EncodeChar(c) + rest) == Some((c, |EncodeChar(c)|))
  {
    var n := c as int;
    var b := EncodeChar(c) + rest;
    if 0x80 <= n {
      assert n == 0x40 * (n / 0x40) + n % 0x40;
      assert n / 0x40 == 0x40 * (n / 0x1000) + n / 0x40 % 0x40;
      assert n / 0x1000 == 0x40 * (n / 0x40000) + n / 0x1000 % 0x40;
    }
  }

  lemma EncodeDecodedChar(b: seq<Byte>)
    requires b != [] && DecodeChar(b).Some?
    ensures var (c, size) := DecodeChar(b).value; EncodeChar(c) == b[..size]
  {
    var (_, size) := DecodeChar(b).value;
    if size == 2 {
      SplitBits(b[0] - 0xC0, Bits(b[1]));
    } else if size == 3 {
      DecodedThree(b);
    } else if size == 4 {
      DecodedFour(b);
    }
  }

  lemma DecodedThree(b: seq<Byte>)
    requires b != [] && DecodeChar(b).Some? && DecodeChar(b).value.1 == 3
    ensures EncodeChar(DecodeChar(b).value.0) == b[..3]
  {
    var two := 0x40 * (b[0] - 0xE0) + Bits(b[1]);
    SplitBits(b[0] - 0xE0, Bits(b[1]));
    SplitBits(two, Bits(b[2]));
    ShiftTwice(0x40 * two + Bits(b[2]));
  }

  lemma DecodedFour(b: seq<Byte>)
    requires b != [] && DecodeChar(b).Some? && DecodeChar(b).value.1 == 4
    ensures EncodeChar(DecodeChar(b).value.0) == b[..4]
  {
    var two := 0x40 * (b[0] - 0xF0) + Bits(b[1]);
    var three := 0x40 * two + Bits(b[2]);
    SplitBits(b[0] - 0xF0, Bits(b[1]));
    SplitBits(two, Bits(b[2]));
    SplitBits(three, Bits(b[3]));
    ShiftTwice(0x40 * three + Bits(b[3]));
    ShiftTwice(three);
  }

  lemma SplitBits(high: int, low: int)
    requires 0 <= low < 0x40
    ensures (0x40 * high + low) / 0x40 == high && (0x40 * high + low) % 0x40 == low
  {
  }

  lemma ShiftTwice(n: int)
    ensures n / 0x40 / 0x40 == n / 0x1000 && n / 0x1000 / 0x40 == n / 0x40000
  {
  }

  // ---------------------------------------------------------------- strings

  function Encode(s: string): seq<Byte> {
    if s == "" then [] else EncodeChar(s[0]) + Encode(s[1..])
  }

  function Decode(b: seq<Byte>): Option<string> {
    if b == [] then Some("")
    else match DecodeChar(b)
      case None => None
      case Some((c, size)) =>
        match Decode(b[size..]) case None => None case Some(s) => Some([c] + s)
  }

  function Size(s: string): nat { |Encode(s)| }

  /** Decoding what was encoded gives back the text. */
  lemma {:induction false} DecodeEncode(s: string)
    ensures Decode(Encode(s)) == Some(s)
  {
    if s != "" {
      var tail := Encode(s[1..]);
      DecodeEncodedChar(s[0], tail);
      assert (EncodeChar(s[0]) + tail)[|EncodeChar(s[0])|..] == tail;
      DecodeEncode(s[1..]);
      assert [s[0]] + s[1..] == s;
    }
  }

  /** Valid bytes are exactly the encodings: nothing is normalized away by decoding. */
  lemma {:induction false} EncodeDecode(b: seq<Byte>)
    requires Decode(b).Some?
    ensures Encode(Decode(b).value) == b
  {
    if b != [] {
      var (c, size) := DecodeChar(b).value;
      EncodeDecodedChar(b);
      EncodeDecode(b[size..]);
      assert ([c] + Decode(b[size..]).value)[1..] == Decode(b[size..]).value;
      assert b == b[..size] + b[size..];
    }
  }

  lemma EncodeInjective(a: string, b: string)
    requires Encode(a) == Encode(b)
    ensures a == b
  {
    DecodeEncode(a);
    DecodeEncode(b);
  }

  lemma {:induction false} SizeConcat(a: string, b: string)
    ensures Size(a + b) == Size(a) + Size(b)
  {
    if a == "" {
      assert a + b == b;
    } else {
      assert (a + b)[1..] == a[1..] + b;
      SizeConcat(a[1..], b);
    }
  }

  /** ASCII text takes one byte for each character. */
  lemma {:induction false} AsciiSize(s: string)
    requires forall i | 0 <= i < |s| :: s[i] as int < 0x80
    ensures Size(s) == |s|
  {
    if s != "" {
      AsciiSize(s[1..]);
    }
  }

  // ---------------------------------------------------------------- order

  /** Strict lexicographic order by scalar value. */
  predicate Before(a: string, b: string) {
    b != "" && (a == "" || a[0] < b[0] || (a[0] == b[0] && Before(a[1..], b[1..])))
  }

  /** Strict lexicographic order by byte, which is how sort.Strings compares Go strings. */
  predicate BytesBefore(a: seq<Byte>, b: seq<Byte>) {
    b != [] && (a == [] || a[0] < b[0] || (a[0] == b[0] && BytesBefore(a[1..], b[1..])))
  }

  lemma {:induction false} BytesBeforePrefix(p: seq<Byte>, a: seq<Byte>, b: seq<Byte>)
    ensures BytesBefore(p + a, p + b) == BytesBefore(a, b)
  {
    if p == [] {
      assert p + a == a && p + b == b;
    } else {
      assert (p + a)[1..] == p[1..] + a && (p + b)[1..] == p[1..] + b;
      BytesBeforePrefix(p[1..], a, b);
    }
  }

  /** At the first byte where two encodings differ, the smaller character has the smaller byte. */
  lemma CharOrder(c: char, d: char, x: seq<Byte>, y: seq<Byte>)
    requires c < d
    ensures BytesBefore(EncodeChar(c) + x, EncodeChar(d) + y)
    ensures !BytesBefore(EncodeChar(d) + y, EncodeChar(c) + x)
  {
    hide EncodeChar, BytesBefore;
    var a, b := EncodeChar(c) + x, EncodeChar(d) + y;
    FirstBytes(c, d);
    var i: nat := 0;
    if EncodeChar(c)[0] >= EncodeChar(d)[0] {
      i := FirstDifference(c as int, d as int, |EncodeChar(c)|);
    }
    var p := EncodeChar(c)[..i];
    assert p == EncodeChar(d)[..i];
    assert a == p + a[i..] && b == p + b[i..];
    BytesBeforePrefix(p, a[i..], b[i..]);
    BytesBeforePrefix(p, b[i..], a[i..]);
    FirstByteDecides(a[i..], b[i..]);
  }

  lemma FirstBytes(c: char, d: char)
    requires c < d
    ensures EncodeChar(c) != [] && EncodeChar(d) != []
    ensures EncodeChar(c)[0] < EncodeChar(d)[0] || 2 <= |EncodeChar(c)| == |EncodeChar(d)|
  {
  }

  lemma FirstByteDecides(a: seq<Byte>, b: seq<Byte>)
    requires a != [] && b != [] && a[0] < b[0]
    ensures BytesBefore(a, b) && !BytesBefore(b, a)
  {
  }

  lemma FirstDifference(n: int, m: int, size: nat) returns (i: nat)
    requires IsScalar(n) && IsScalar(m) && n < m && 2 <= size
    requires |EncodeChar(n as char)| == |EncodeChar(m as char)| == size
    ensures i < size && EncodeChar(n as char)[..i] == EncodeChar(m as char)[..i]
    ensures EncodeChar(n as char)[i] < EncodeChar(m as char)[i]
  {
    CompareParts(n, m);
    ShiftTwice(n);
    ShiftTwice(m);
    if n / 0x40 == m / 0x40 {
      i := size - 1;
    } else {
      CompareParts(n / 0x40, m / 0x40);
      if size == 2 {
        i := 0;
      } else if n / 0x1000 == m / 0x1000 {
        i := size - 2;
      } else {
        CompareParts(n / 0x1000, m / 0x1000);
        i := if size == 3 || n / 0x40000 != m / 0x40000 then 0 else 1;
      }
    }
  }

  lemma CompareParts(n: int, m: int)
    requires n < m
    ensures n / 0x40 < m / 0x40 || (n / 0x40 == m / 0x40 && n % 0x40 < m % 0x40)
  {
  }

  /** Sorting keys as byte strings and sorting them by scalar value is the same order. */
  lemma {:induction false} OrderAgrees(a: string, b: string)
    ensures BytesBefore(Encode(a), Encode(b)) <==> Before(a, b)
  {
    if a != "" && b != "" {
      if a[0] == b[0] {
        BytesBeforePrefix(EncodeChar(a[0]), Encode(a[1..]), Encode(b[1..]));
        OrderAgrees(a[1..], b[1..]);
      } else if a[0] < b[0] {
        CharOrder(a[0], b[0], Encode(a[1..]), Encode(b[1..]));
      } else {
        CharOrder(b[0], a[0], Encode(b[1..]), Encode(a[1..]));
      }
    }
  }
}
