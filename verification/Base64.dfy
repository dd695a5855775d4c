/**
  The unpadded URL-safe base64 of section 5 of RFC 4648, as encoding/base64's RawURLEncoding
  writes and reads it.
 */
module Base64 {
  import opened Wrappers
  import Utf8

  type Byte = Utf8.Byte

  function Sextet(n: nat): char
    requires n < 64
  {
    if n < 26 then ('A' as int + n) as char
    else if n < 52 then ('a' as int + (n - 26)) as char
    else if n < 62 then ('0' as int + (n - 52)) as char
    else if n == 62 then '-' else '_'
  }

  function SextetValue(c: char): (n: Option<nat>)
    ensures n.Some? ==> n.value < 64
  {
    if 'A' <= c <= 'Z' then Some(c as int - 'A' as int)
    else if 'a' <= c <= 'z' then Some(c as int - 'a' as int + 26)
    else if '0' <= c <= '9' then Some(c as int - '0' as int + 52)
    else if c == '-' then Some(62)
    else if c == '_' then Some(63)
    else None
  }

  // ---------------------------------------------------------------- codec

  function Encode(b: seq<Byte>): string {
    if b == [] then ""
    else if |b| == 1 then [Sextet(b[0] / 4), Sextet(b[0] % 4 * 16)]
    else if |b| == 2 then [Sextet(b[0] / 4), Sextet(b[0] % 4 * 16 + b[1] / 16), Sextet(b[1] % 16 * 4)]
    else
      [Sextet(b[0] / 4), Sextet(b[0] % 4 * 16 + b[1] / 16), Sextet(b[1] % 16 * 4 + b[2] / 64), Sextet(b[2] % 64)]
      + Encode(b[3..])
  }

  /** The decoder skips line breaks wherever they stand. */
  function DropLineBreaks(s: string): string {
    if s == "" then ""
    else if s[0] == '\n' || s[0] == '\r' then DropLineBreaks(s[1..])
    else [s[0]] + DropLineBreaks(s[1..])
  }

  /** Trailing bits of a short last group are ignored. */
  function DecodeGroups(s: string): Option<seq<Byte>>
  {
    if s == "" then Some([])
    else if |s| == 1 || SextetValue(s[0]).None? || SextetValue(s[1]).None? then None
    else
      var first: Byte := SextetValue(s[0]).value * 4 + SextetValue(s[1]).value / 16;
      if |s| == 2 then Some([first])
      else if SextetValue(s[2]).None? then None
      else
        var second: Byte := SextetValue(s[1]).value % 16 * 16 + SextetValue(s[2]).value / 4;
        if |s| == 3 then Some([first, second])
        else if SextetValue(s[3]).None? then None
        else
          var third: Byte := SextetValue(s[2]).value % 4 * 64 + SextetValue(s[3]).value;
          match DecodeGroups(s[4..])
          case None => None
          case Some(rest) => Some([first, second, third] + rest)
  }

  function Decode(s: string): Option<seq<Byte>> { DecodeGroups(DropLineBreaks(s)) }

  // ---------------------------------------------------------------- round trip

  lemma SextetReads(n: nat)
    requires n < 64
    ensures SextetValue(Sextet(n)) == Some(n)
  {
  }

  predicate IsSextet(c: char) { SextetValue(c).Some? }

  /** Three bytes are four sextets and back. */
  lemma GroupBits(x: Byte, y: Byte, z: Byte)
    ensures x / 4 < 64 && x % 4 * 16 + y / 16 < 64 && y % 16 * 4 + z / 64 < 64 && z % 64 < 64
    ensures x / 4 * 4 + (x % 4 * 16 + y / 16) / 16 == x
    ensures (x % 4 * 16 + y / 16) % 16 * 16 + (y % 16 * 4 + z / 64) / 4 == y
    ensures (y % 16 * 4 + z / 64) % 4 * 64 + z % 64 == z
  {
  }

  /** The encoded text uses the alphabet only, and has four characters for every three bytes, rounded up. */
  lemma {:induction false} EncodeShape(b: seq<Byte>)
    ensures |Encode(b)| == (4 * |b| + 2) / 3
    ensures forall i | 0 <= i < |Encode(b)| :: IsSextet(Encode(b)[i])
  {
    if |b| >= 3 {
      EncodeShape(b[3..]);
    }
  }

  lemma {:induction false} NoLineBreaks(s: string)
    requires forall i | 0 <= i < |s| :: IsSextet(s[i])
    ensures DropLineBreaks(s) == s
  {
    if s != "" {
      assert IsSextet(s[0]);
      forall i | 0 <= i < |s[1..]| ensures IsSextet(s[1..][i]) {
        assert s[1..][i] == s[i + 1];
      }
      NoLineBreaks(s[1..]);
    }
  }

  lemma {:induction false} GroupsRoundTrip(b: seq<Byte>)
    ensures DecodeGroups(Encode(b)) == Some(b)
  {
    hide Sextet, SextetValue;
    if b == [] {
    } else if |b| == 1 {
      LastGroup(b[0]);
      assert b == [b[0]];
    } else if |b| == 2 {
      LastTwo(b[0], b[1]);
      assert b == [b[0], b[1]];
    } else {
      GroupsRoundTrip(b[3..]);
      FullGroup(b[0], b[1], b[2], Encode(b[3..]));
      assert b == [b[0], b[1], b[2]] + b[3..];
    }
  }

  lemma LastGroup(x: Byte)
    ensures DecodeGroups([Sextet(x / 4), Sextet(x % 4 * 16)]) == Some([x])
  {
    hide Sextet, SextetValue;
    GroupBits(x, 0, 0);
    SextetReads(x / 4);
    SextetReads(x % 4 * 16);
  }

  lemma LastTwo(x: Byte, y: Byte)
    ensures x % 4 * 16 + y / 16 < 64
    ensures DecodeGroups([Sextet(x / 4), Sextet(x % 4 * 16 + y / 16), Sextet(y % 16 * 4)]) == Some([x, y])
  {
    hide Sextet, SextetValue;
    GroupBits(x, y, 0);
    SextetReads(x / 4);
    SextetReads(x % 4 * 16 + y / 16);
    SextetReads(y % 16 * 4);
  }

  lemma FullGroup(x: Byte, y: Byte, z: Byte, rest: string)
    requires DecodeGroups(rest).Some?
    ensures x % 4 * 16 + y / 16 < 64 && y % 16 * 4 + z / 64 < 64
    ensures DecodeGroups([Sextet(x / 4), Sextet(x % 4 * 16 + y / 16), Sextet(y % 16 * 4 + z / 64), Sextet(z % 64)]
                         + rest)
            == Some([x, y, z] + DecodeGroups(rest).value)
  {
    hide Sextet, SextetValue;
    GroupBits(x, y, z);
    var group := [Sextet(x / 4), Sextet(x % 4 * 16 + y / 16), Sextet(y % 16 * 4 + z / 64), Sextet(z % 64)];
    var s := group + rest;
    assert s[4..] == rest && s[0] == group[0] && s[1] == group[1] && s[2] == group[2] && s[3] == group[3];
    SextetReads(x / 4);
    SextetReads(x % 4 * 16 + y / 16);
    SextetReads(y % 16 * 4 + z / 64);
    SextetReads(z % 64);
  }

  /** Decoding what was encoded gives back the bytes. */
  lemma RoundTrip(b: seq<Byte>)
    ensures Decode(Encode(b)) == Some(b)
  {
    EncodeShape(b);
    NoLineBreaks(Encode(b));
    GroupsRoundTrip(b);
  }

  // ---------------------------------------------------------------- bits

  /** The alphabet: capitals, small letters, digits, a hyphen and an underscore, each standing for its place. */
  lemma AlphabetExact(c: char, n: nat)
    requires n < 64
    ensures Sextet(0) == 'A' && Sextet(26) == 'a' && Sextet(52) == '0' && Sextet(62) == '-' && Sextet(63) == '_'
    ensures n < 61 && n != 25 && n != 51 ==> Sextet(n + 1) as int == Sextet(n) as int + 1
    ensures SextetValue(c) == Some(n) <==> c == Sextet(n)
  {
  }

  /** The bits of a byte and of a sextet, the highest first. */
  function ByteBits(x: Byte): seq<nat> {
    [x / 128, x / 64 % 2, x / 32 % 2, x / 16 % 2, x / 8 % 2, x / 4 % 2, x / 2 % 2, x % 2]
  }

  function SextetBits(n: nat): seq<nat> {
    [n / 32, n / 16 % 2, n / 8 % 2, n / 4 % 2, n / 2 % 2, n % 2]
  }

  function Bits(b: seq<Byte>): seq<nat> { if b == [] then [] else ByteBits(b[0]) + Bits(b[1..]) }

  function TextBits(s: string): seq<nat> {
    if s == "" then []
    else (match SextetValue(s[0]) case None => [] case Some(n) => SextetBits(n)) + TextBits(s[1..])
  }

  predicate AllBits(b: seq<nat>) { forall i | 0 <= i < |b| :: b[i] < 2 }

  /** A byte is the number its bits spell, and a sextet has the bits that spell it. */
  lemma ByteSum(x: Byte)
    ensures var b := ByteBits(x);
            && |b| == 8 && AllBits(b)
            && x == 128 * b[0] + 64 * b[1] + 32 * b[2] + 16 * b[3] + 8 * b[4] + 4 * b[5] + 2 * b[6] + b[7]
  {
    assert x / 64 / 2 == x / 128 && x / 32 / 2 == x / 64 && x / 16 / 2 == x / 32 && x / 8 / 2 == x / 16;
    assert x / 4 / 2 == x / 8 && x / 2 / 2 == x / 4;
  }

  /** A sextet is the number its bits spell. */
  lemma SextetSum(n: nat)
    requires n < 64
    ensures var b := SextetBits(n);
            && |b| == 6 && AllBits(b) && n == 32 * b[0] + 16 * b[1] + 8 * b[2] + 4 * b[3] + 2 * b[4] + b[5]
  {
    assert n / 16 / 2 == n / 32 && n / 8 / 2 == n / 16 && n / 4 / 2 == n / 8 && n / 2 / 2 == n / 4;
  }

  lemma BitsOfSextet(b: seq<nat>)
    requires |b| == 6 && AllBits(b)
    ensures var n := 32 * b[0] + 16 * b[1] + 8 * b[2] + 4 * b[3] + 2 * b[4] + b[5]; n < 64 && SextetBits(n) == b
  {
    var n := 32 * b[0] + 16 * b[1] + 8 * b[2] + 4 * b[3] + 2 * b[4] + b[5];
    assert n / 32 == b[0] && n / 16 == 2 * b[0] + b[1] && n / 8 == 4 * b[0] + 2 * b[1] + b[2];
    assert n / 4 == 8 * b[0] + 4 * b[1] + 2 * b[2] + b[3];
    assert n / 2 == 16 * b[0] + 8 * b[1] + 4 * b[2] + 2 * b[3] + b[4];
  }

  lemma BitsOfByte(b: seq<nat>)
    requires |b| == 8 && AllBits(b)
    ensures var x := 128 * b[0] + 64 * b[1] + 32 * b[2] + 16 * b[3] + 8 * b[4] + 4 * b[5] + 2 * b[6] + b[7];
            x < 256 && ByteBits(x) == b
  {
    var h, l := 8 * b[0] + 4 * b[1] + 2 * b[2] + b[3], 8 * b[4] + 4 * b[5] + 2 * b[6] + b[7];
    BitsOfNibble(b[..4]);
    BitsOfNibble(b[4..]);
    SplitByte(h, l);
  }

  lemma BitsOfNibble(b: seq<nat>)
    requires |b| == 4 && AllBits(b)
    ensures var h := 8 * b[0] + 4 * b[1] + 2 * b[2] + b[3];
            h < 16 && h / 8 == b[0] && h / 4 % 2 == b[1] && h / 2 % 2 == b[2] && h % 2 == b[3]
  {
    var h := 8 * b[0] + 4 * b[1] + 2 * b[2] + b[3];
    assert h / 8 == b[0] && h / 4 == 2 * b[0] + b[1] && h / 2 == 4 * b[0] + 2 * b[1] + b[2];
  }

  /** Splitting a byte into its high and its low bits. */
  lemma SplitByte(h: nat, l: nat)
    requires h < 16 && l < 16
    ensures var x := h * 16 + l;
            && x / 128 == h / 8 && x / 64 % 2 == h / 4 % 2 && x / 32 % 2 == h / 2 % 2 && x / 16 % 2 == h % 2
            && x / 8 % 2 == l / 8 && x / 4 % 2 == l / 4 % 2 && x / 2 % 2 == l / 2 % 2 && x % 2 == l % 2
  {
    var x := h * 16 + l;
    assert x / 128 == h / 8 && x / 64 == h / 4 && x / 32 == h / 2 && x / 16 == h;
    assert x / 8 == 2 * h + l / 8 && x / 4 == 4 * h + l / 4 && x / 2 == 8 * h + l / 2;
  }

  // ---------------------------------------------------------------- encoding keeps the bits

  /** The four sextets of three bytes have their bits. */
  lemma OuterSextets(x: Byte, z: Byte)
    ensures SextetBits(x / 4) == ByteBits(x)[..6] && SextetBits(z % 64) == ByteBits(z)[2..]
  {
    hide SextetBits, ByteBits;
    ByteSum(x);
    ByteSum(z);
    BitsOfSextet(ByteBits(x)[..6]);
    BitsOfSextet(ByteBits(z)[2..]);
  }

  lemma SplitBits(x: Byte)
    ensures var b := ByteBits(x);
            && |b| == 8 && AllBits(b) && x % 4 == 2 * b[6] + b[7] && x / 64 == 2 * b[0] + b[1]
            && x / 16 == 8 * b[0] + 4 * b[1] + 2 * b[2] + b[3] && x % 16 == 8 * b[4] + 4 * b[5] + 2 * b[6] + b[7]
  {
    hide ByteBits;
    ByteSum(x);
    var b := ByteBits(x);
    assert x == 4 * (32 * b[0] + 16 * b[1] + 8 * b[2] + 4 * b[3] + 2 * b[4] + b[5]) + (2 * b[6] + b[7]);
    assert x == 16 * (8 * b[0] + 4 * b[1] + 2 * b[2] + b[3]) + (8 * b[4] + 4 * b[5] + 2 * b[6] + b[7]);
    assert x == 64 * (2 * b[0] + b[1]) + (32 * b[2] + 16 * b[3] + 8 * b[4] + 4 * b[5] + 2 * b[6] + b[7]);
  }

  lemma InnerSextets(x: Byte, y: Byte)
    ensures x % 4 * 16 + y / 16 < 64 && SextetBits(x % 4 * 16 + y / 16) == ByteBits(x)[6..] + ByteBits(y)[..4]
    ensures x % 16 * 4 + y / 64 < 64 && SextetBits(x % 16 * 4 + y / 64) == ByteBits(x)[4..] + ByteBits(y)[..2]
  {
    hide SextetBits, ByteBits;
    SplitBits(x);
    SplitBits(y);
    BitsOfSextet(ByteBits(x)[6..] + ByteBits(y)[..4]);
    BitsOfSextet(ByteBits(x)[4..] + ByteBits(y)[..2]);
  }

  lemma PushSextet(n: nat, rest: string)
    requires n < 64
    ensures TextBits([Sextet(n)] + rest) == SextetBits(n) + TextBits(rest)
  {
    SextetReads(n);
    assert ([Sextet(n)] + rest)[1..] == rest;
  }

  lemma JoinBits(p: seq<nat>, q: seq<nat>, r: seq<nat>, rest: seq<nat>)
    requires |p| >= 6 && |q| >= 4 && |r| >= 2
    ensures p[..6] + ((p[6..] + q[..4]) + ((q[4..] + r[..2]) + (r[2..] + rest))) == p + q + r + rest
  {
  }

  lemma TextOfGroup(x: Byte, y: Byte, z: Byte, rest: string)
    ensures x % 4 * 16 + y / 16 < 64 && y % 16 * 4 + z / 64 < 64
    ensures TextBits([Sextet(x / 4), Sextet(x % 4 * 16 + y / 16), Sextet(y % 16 * 4 + z / 64), Sextet(z % 64)] + rest)
            == ByteBits(x) + ByteBits(y) + ByteBits(z) + TextBits(rest)
  {
    hide SextetBits, ByteBits, Sextet, TextBits;
    OuterSextets(x, z);
    InnerSextets(x, y);
    InnerSextets(y, z);
    ByteSum(x);
    ByteSum(y);
    ByteSum(z);
    var four := [Sextet(z % 64)] + rest;
    var three := [Sextet(y % 16 * 4 + z / 64)] + four;
    var two := [Sextet(x % 4 * 16 + y / 16)] + three;
    PushSextet(z % 64, rest);
    PushSextet(y % 16 * 4 + z / 64, four);
    PushSextet(x % 4 * 16 + y / 16, three);
    PushSextet(x / 4, two);
    assert [Sextet(x / 4), Sextet(x % 4 * 16 + y / 16), Sextet(y % 16 * 4 + z / 64), Sextet(z % 64)] + rest
           == [Sextet(x / 4)] + two;
    JoinBits(ByteBits(x), ByteBits(y), ByteBits(z), TextBits(rest));
  }

  lemma TextOfOne(x: Byte)
    ensures TextBits([Sextet(x / 4), Sextet(x % 4 * 16)]) == ByteBits(x) + [0, 0, 0, 0]
  {
    assert ByteBits(0)[..4] == [0, 0, 0, 0] && TextBits("") == [];
    hide SextetBits, ByteBits, Sextet, TextBits;
    OuterSextets(x, 0);
    InnerSextets(x, 0);
    ByteSum(x);
    PushSextet(x % 4 * 16, "");
    PushSextet(x / 4, [Sextet(x % 4 * 16)] + "");
    assert [Sextet(x / 4), Sextet(x % 4 * 16)] == [Sextet(x / 4)] + ([Sextet(x % 4 * 16)] + "");
  }

  lemma TextOfTwo(x: Byte, y: Byte)
    ensures x % 4 * 16 + y / 16 < 64
    ensures TextBits([Sextet(x / 4), Sextet(x % 4 * 16 + y / 16), Sextet(y % 16 * 4)])
            == ByteBits(x) + ByteBits(y) + [0, 0]
  {
    assert ByteBits(0)[..2] == [0, 0] && TextBits("") == [];
    hide SextetBits, ByteBits, Sextet, TextBits;
    OuterSextets(x, 0);
    InnerSextets(x, y);
    InnerSextets(y, 0);
    ByteSum(x);
    ByteSum(y);
    var three := [Sextet(y % 16 * 4)] + "";
    var two := [Sextet(x % 4 * 16 + y / 16)] + three;
    PushSextet(y % 16 * 4, "");
    PushSextet(x % 4 * 16 + y / 16, three);
    PushSextet(x / 4, two);
    assert [Sextet(x / 4), Sextet(x % 4 * 16 + y / 16), Sextet(y % 16 * 4)] == [Sextet(x / 4)] + two;
    JoinTwo(ByteBits(x), ByteBits(y), ByteBits(0)[..2]);
  }

  lemma JoinTwo(p: seq<nat>, q: seq<nat>, zeros: seq<nat>)
    requires |p| >= 6 && |q| >= 4
    ensures p[..6] + ((p[6..] + q[..4]) + ((q[4..] + zeros) + [])) == p + q + zeros
  {
  }

  lemma PopByte(b: seq<Byte>)
    requires b != []
    ensures Bits(b) == ByteBits(b[0]) + Bits(b[1..])
  {
  }

  lemma Regroup(p: seq<nat>, q: seq<nat>, r: seq<nat>, rest: seq<nat>)
    ensures p + (q + (r + rest)) == p + q + r + rest
  {
  }

  lemma EncodeBitsOne(x: Byte)
    ensures TextBits(Encode([x])) == Bits([x]) + [0, 0, 0, 0]
  {
    hide SextetBits, ByteBits, Sextet, TextBits, Bits;
    NoBits();
    TextOfOne(x);
    PopByte([x]);
    assert [x][1..] == [];
  }

  lemma EncodeBitsTwo(x: Byte, y: Byte)
    ensures TextBits(Encode([x, y])) == Bits([x, y]) + [0, 0]
  {
    hide SextetBits, ByteBits, Sextet, TextBits, Bits;
    TextOfTwo(x, y);
    TwoBytes(x, y);
  }

  lemma TwoBytes(x: Byte, y: Byte)
    ensures Bits([x, y]) == ByteBits(x) + ByteBits(y)
  {
    hide ByteBits, Bits;
    NoBits();
    assert [x, y][1..] == [y] && [y][1..] == [];
    PopByte([x, y]);
    PopByte([y]);
  }

  lemma BitsOfGroup(b: seq<Byte>)
    requires |b| >= 3
    ensures Bits(b) == ByteBits(b[0]) + ByteBits(b[1]) + ByteBits(b[2]) + Bits(b[3..])
  {
    hide ByteBits, Bits;
    assert b[1..][1..] == b[2..] && b[2..][1..] == b[3..];
    PopByte(b);
    PopByte(b[1..]);
    PopByte(b[2..]);
    Regroup(ByteBits(b[0]), ByteBits(b[1]), ByteBits(b[2]), Bits(b[3..]));
  }

  /** The text has the bits of the bytes, and zeros up to a whole character. */
  lemma {:induction false} EncodeBits(b: seq<Byte>)
    ensures TextBits(Encode(b)) ==
            Bits(b) + (if |b| % 3 == 0 then [] else if |b| % 3 == 1 then [0, 0, 0, 0] else [0, 0])
  {
    hide SextetBits, ByteBits, Sextet, TextBits, Bits;
    if |b| >= 3 {
      EncodeBits(b[3..]);
      TextOfGroup(b[0], b[1], b[2], Encode(b[3..]));
      BitsOfGroup(b);
    } else if |b| == 2 {
      assert b == [b[0], b[1]];
      EncodeBitsTwo(b[0], b[1]);
    } else if |b| == 1 {
      assert b == [b[0]];
      EncodeBitsOne(b[0]);
    } else {
      NoBits();
      NoText();
    }
  }

  lemma NoText()
    ensures TextBits("") == []
  {
  }

  // ---------------------------------------------------------------- decoding keeps the bits

  predicate AllSextets(s: string) { forall i | 0 <= i < |s| :: IsSextet(s[i]) }

  lemma DecodedBytes(m: nat, n: nat, o: nat, p: nat)
    requires m < 64 && n < 64 && o < 64 && p < 64
    ensures m * 4 + n / 16 < 256 && n % 16 * 16 + o / 4 < 256 && o % 4 * 64 + p < 256
    ensures var b := SextetBits(m) + SextetBits(n) + SextetBits(o) + SextetBits(p);
            && ByteBits(m * 4 + n / 16) == b[..8] && ByteBits(n % 16 * 16 + o / 4) == b[8..16]
            && ByteBits(o % 4 * 64 + p) == b[16..]
  {
    hide SextetBits, ByteBits;
    SextetHalves(m);
    SextetHalves(n);
    SextetHalves(o);
    SextetHalves(p);
    var b := SextetBits(m) + SextetBits(n) + SextetBits(o) + SextetBits(p);
    BitsOfByte(b[..8]);
    BitsOfByte(b[8..16]);
    BitsOfByte(b[16..]);
  }

  lemma SextetHalves(n: nat)
    requires n < 64
    ensures var b := SextetBits(n);
            && |b| == 6 && AllBits(b) && n == 32 * b[0] + 16 * b[1] + 8 * b[2] + 4 * b[3] + 2 * b[4] + b[5]
            && n / 16 == 2 * b[0] + b[1] && n % 16 == 8 * b[2] + 4 * b[3] + 2 * b[4] + b[5]
            && n / 4 == 8 * b[0] + 4 * b[1] + 2 * b[2] + b[3] && n % 4 == 2 * b[4] + b[5]
  {
    hide SextetBits;
    SextetSum(n);
    var b := SextetBits(n);
    assert n == 16 * (2 * b[0] + b[1]) + (8 * b[2] + 4 * b[3] + 2 * b[4] + b[5]);
    assert n == 4 * (8 * b[0] + 4 * b[1] + 2 * b[2] + b[3]) + (2 * b[4] + b[5]);
  }

  lemma PopSextet(s: string)
    requires s != "" && IsSextet(s[0])
    ensures TextBits(s) == SextetBits(SextetValue(s[0]).value) + TextBits(s[1..])
  {
  }

  lemma {:induction false} TextBitsLength(s: string)
    requires AllSextets(s)
    ensures |TextBits(s)| == 6 * |s|
  {
    if s != "" {
      assert IsSextet(s[0]);
      TextBitsLength(s[1..]);
    }
  }

  lemma PopFour(s: string)
    requires |s| >= 4 && IsSextet(s[0]) && IsSextet(s[1]) && IsSextet(s[2]) && IsSextet(s[3])
    ensures TextBits(s) ==
            SextetBits(SextetValue(s[0]).value) + SextetBits(SextetValue(s[1]).value)
            + SextetBits(SextetValue(s[2]).value) + SextetBits(SextetValue(s[3]).value) + TextBits(s[4..])
  {
    hide SextetBits, SextetValue, TextBits;
    assert s[1..][1..] == s[2..] && s[2..][1..] == s[3..] && s[3..][1..] == s[4..];
    PopSextet(s);
    PopSextet(s[1..]);
    PopSextet(s[2..]);
    PopSextet(s[3..]);
    Regroup(SextetBits(SextetValue(s[0]).value), SextetBits(SextetValue(s[1]).value),
            SextetBits(SextetValue(s[2]).value), SextetBits(SextetValue(s[3]).value) + TextBits(s[4..]));
    Regroup([], SextetBits(SextetValue(s[0]).value) + SextetBits(SextetValue(s[1]).value)
                + SextetBits(SextetValue(s[2]).value), SextetBits(SextetValue(s[3]).value), TextBits(s[4..]));
  }

  lemma ShortBits(s: string)
    requires 2 <= |s| <= 3 && AllSextets(s)
    ensures var b := DecodeGroups(s).value; 8 * |b| <= |TextBits(s)| && Bits(b) == TextBits(s)[..8 * |b|]
  {
    hide SextetBits, ByteBits, SextetValue, TextBits;
    NoText();
    assert IsSextet(s[0]) && IsSextet(s[1]) && (|s| == 3 ==> IsSextet(s[2]));
    var m, n := SextetValue(s[0]).value, SextetValue(s[1]).value;
    PopSextet(s);
    PopSextet(s[1..]);
    assert s[1..][1..] == s[2..];
    SextetSum(m);
    SextetSum(n);
    if |s| == 2 {
      DecodedBytes(m, n, 0, 0);
      assert Bits([m * 4 + n / 16]) == ByteBits(m * 4 + n / 16) + [];
    } else {
      var o := SextetValue(s[2]).value;
      PopSextet(s[2..]);
      SextetSum(o);
      DecodedBytes(m, n, o, 0);
      TwoBytes(m * 4 + n / 16, n % 16 * 16 + o / 4);
    }
  }

  lemma LongBits(s: string)
    requires |s| >= 4 && AllSextets(s) && DecodeGroups(s[4..]).Some?
    requires var b := DecodeGroups(s[4..]).value;
             8 * |b| <= |TextBits(s[4..])| && Bits(b) == TextBits(s[4..])[..8 * |b|]
    ensures var b := DecodeGroups(s).value; 8 * |b| <= |TextBits(s)| && Bits(b) == TextBits(s)[..8 * |b|]
  {
    hide SextetBits, ByteBits, SextetValue, TextBits, Bits;
    assert IsSextet(s[0]) && IsSextet(s[1]) && IsSextet(s[2]) && IsSextet(s[3]);
    var m, n := SextetValue(s[0]).value, SextetValue(s[1]).value;
    var o, p := SextetValue(s[2]).value, SextetValue(s[3]).value;
    PopFour(s);
    DecodedBytes(m, n, o, p);
    SextetSum(m);
    SextetSum(n);
    SextetSum(o);
    SextetSum(p);
    var rest, b := DecodeGroups(s[4..]).value, DecodeGroups(s).value;
    assert b == [m * 4 + n / 16, n % 16 * 16 + o / 4, o % 4 * 64 + p] + rest && b[3..] == rest;
    BitsOfGroup(b);
    var group := SextetBits(m) + SextetBits(n) + SextetBits(o) + SextetBits(p);
    assert group == group[..8] + group[8..16] + group[16..];
    assert (group + TextBits(s[4..]))[..8 * |b|] == group + TextBits(s[4..])[..8 * |rest|];
  }

  /** A text decodes exactly when it is over the alphabet and leaves no character alone; the bytes have its bits, as far
      as they make whole bytes. */
  lemma {:induction false} DecodeBits(s: string)
    ensures DecodeGroups(s).Some? <==> AllSextets(s) && |s| % 4 != 1
    ensures DecodeGroups(s).Some? ==>
              var b := DecodeGroups(s).value;
              |b| == 6 * |s| / 8 && 8 * |b| <= |TextBits(s)| && Bits(b) == TextBits(s)[..8 * |b|]
  {
    hide SextetBits, ByteBits, SextetValue, TextBits, Bits;
    if |s| >= 4 {
      DecodeBits(s[4..]);
      if AllSextets(s[..4]) {
        assert s == s[..4] + s[4..];
        if DecodeGroups(s).Some? {
          LongBits(s);
        }
      }
    } else if DecodeGroups(s).Some? && s != "" {
      ShortBits(s);
    } else {
      NoText();
      NoBits();
    }
  }

  lemma NoBits()
    ensures Bits([]) == []
  {
  }

  /** Dropping line breaks goes character by character. */
  lemma {:induction false} LineBreaksDropped(a: string, c: char, b: string)
    ensures DropLineBreaks(a + b) == DropLineBreaks(a) + DropLineBreaks(b)
    ensures DropLineBreaks([c]) == if c in {'\n', '\r'} then [] else [c]
  {
    if a == "" {
      assert a + b == b;
    } else {
      assert (a + b)[1..] == a[1..] + b;
      LineBreaksDropped(a[1..], c, b);
    }
  }

  /** Decoding drops line breaks and reads the rest; nothing else about a text is forgiven. */
  lemma DecodeExact(s: string)
    ensures var t := DropLineBreaks(s);
            && (Decode(s).Some? <==> AllSextets(t) && |t| % 4 != 1)
            && (Decode(s).Some? ==> |Decode(s).value| == 6 * |t| / 8 && 8 * (6 * |t| / 8) <= |TextBits(t)|
                                    && Bits(Decode(s).value) == TextBits(t)[..8 * (6 * |t| / 8)])
  {
    hide DropLineBreaks, AllSextets, TextBits, Bits;
    DecodeBits(DropLineBreaks(s));
  }
}
