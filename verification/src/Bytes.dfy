/** Byte strings and the small codecs over them: lower-case hexadecimal, decimal `u64`,
    and lines and fields cut at a separator. */
module Bytes {
  import opened Text

  type Byte = b: int | 0 <= b < 256
  type Bytes = seq<Byte>

  const SPACE: Byte := 32
  const NEWLINE: Byte := 10
  const RETURN: Byte := 13
  const PLUS: Byte := 43
  const SLASH: Byte := 47
  const EQUALS: Byte := 61
  const BACKSLASH: Byte := 92
  const U64: nat := 0x1_0000_0000_0000_0000

  // UTF-8 (section 4 of RFC 3629), which every name satisfies.

  predicate Tail(b: Byte) { 0x80 <= b <= 0xbf }

  /** Length of the well-formed character at the front of `s`; 0 when there is none. */
  function CharLen(s: Bytes): (n: nat)
    requires s != []
    ensures n <= |s|
  {
    var a := s[0];
    if a <= 0x7f then 1
    else if |s| >= 2 && 0xc2 <= a <= 0xdf && Tail(s[1]) then 2
    else if |s| >= 3 && 0xe0 <= a <= 0xef && Tail(s[1]) && Tail(s[2])
            && (a == 0xe0 ==> 0xa0 <= s[1]) && (a == 0xed ==> s[1] <= 0x9f) then 3
    else if |s| >= 4 && 0xf0 <= a <= 0xf4 && Tail(s[1]) && Tail(s[2]) && Tail(s[3])
            && (a == 0xf0 ==> 0x90 <= s[1]) && (a == 0xf4 ==> s[1] <= 0x8f) then 4
    else 0
  }

  predicate Utf8(s: Bytes) {
    s == [] || (CharLen(s) > 0 && Utf8(s[CharLen(s)..]))
  }

  predicate IsScalar(c: nat) {
    c < 0xd800 || 0xe000 <= c < 0x11_0000
  }

  /** The encoding of a Unicode scalar value. */
  function Encode(c: nat): Bytes
    requires IsScalar(c)
  {
    if c < 0x80 then [c]
    else if c < 0x800 then [0xc0 + c / 64, 0x80 + c % 64]
    else if c < 0x1_0000 then [0xe0 + c / 4096, 0x80 + c / 64 % 64, 0x80 + c % 64]
    else [0xf0 + c / 262144, 0x80 + c / 4096 % 64, 0x80 + c / 64 % 64, 0x80 + c % 64]
  }

  lemma {:induction false} EncodedIsTwo(c: nat, s: Bytes)
    requires 0x80 <= c < 0x800 && |s| >= 2 && s[0] == 0xc0 + c / 64 && s[1] == 0x80 + c % 64
    ensures CharLen(s) == 2
  {
  }

  lemma {:induction false} EncodedIsThree(c: nat, s: Bytes)
    requires IsScalar(c) && 0x800 <= c < 0x1_0000 && |s| >= 3
    requires s[0] == 0xe0 + c / 4096 && s[1] == 0x80 + c / 64 % 64 && s[2] == 0x80 + c % 64
    ensures CharLen(s) == 3
  {
    ThreeParts(c);
    var high := c / 64;
    assert c / 4096 == 0 ==> high >= 32 && high % 64 == high;
    assert c / 4096 == 13 ==> 13 * 64 <= high < 13 * 64 + 32;
  }

  lemma {:induction false} EncodedIsFour(c: nat, s: Bytes)
    requires 0x1_0000 <= c < 0x11_0000 && |s| >= 4
    requires s[0] == 0xf0 + c / 262144 && s[1] == 0x80 + c / 4096 % 64 && s[2] == 0x80 + c / 64 % 64 && s[3] == 0x80 + c % 64
    ensures CharLen(s) == 4
  {
    ThreeParts(c);
    var high := c / 4096;
    assert 16 <= high < 272 && c / 262144 == high / 64;
  }

  /** Every encoded scalar is one well-formed character. */
  lemma {:induction false} EncodedIsChar(c: nat, rest: Bytes)
    requires IsScalar(c)
    ensures CharLen(Encode(c) + rest) == |Encode(c)|
  {
    var s := Encode(c) + rest;
    if 0x80 <= c < 0x800 {
      EncodedIsTwo(c, s);
    } else if 0x800 <= c < 0x1_0000 {
      EncodedIsThree(c, s);
    } else if 0x1_0000 <= c {
      EncodedIsFour(c, s);
    }
  }

  /** And every well-formed character is the encoding of a scalar. */
  lemma {:induction false} CharIsEncoded(s: Bytes) returns (c: nat)
    requires s != [] && CharLen(s) > 0
    ensures IsScalar(c) && s[..CharLen(s)] == Encode(c)
  {
    var n := CharLen(s);
    var a: int := s[0];
    if n == 1 {
      c := a;
    } else if n == 2 {
      var b: int := s[1];
      c := (a - 0xc0) * 64 + (b - 0x80);
      SixBits(a - 0xc0, b - 0x80);
    } else if n == 3 {
      var b: int, d: int := s[1], s[2];
      c := ((a - 0xe0) * 64 + (b - 0x80)) * 64 + (d - 0x80);
      SixBits((a - 0xe0) * 64 + (b - 0x80), d - 0x80);
      SixBits(a - 0xe0, b - 0x80);
      ThreeParts(c);
    } else {
      var b: int, d: int, e: int := s[1], s[2], s[3];
      var high := ((a - 0xf0) * 64 + (b - 0x80)) * 64 + (d - 0x80);
      c := high * 64 + (e - 0x80);
      SixBits(high, e - 0x80);
      SixBits((a - 0xf0) * 64 + (b - 0x80), d - 0x80);
      SixBits(a - 0xf0, b - 0x80);
      ThreeParts(c);
    }
  }

  lemma {:induction false} SixBits(high: nat, low: nat)
    requires low < 64
    ensures (high * 64 + low) / 64 == high && (high * 64 + low) % 64 == low
  {
  }

  lemma {:induction false} ThreeParts(c: nat)
    ensures c / 4096 == c / 64 / 64 && c / 262144 == c / 64 / 64 / 64
  {
  }

  predicate Ascii(s: Bytes) {
    forall b :: b in s ==> b <= 0x7f
  }

  lemma {:induction false} AsciiIsUtf8(s: Bytes)
    requires Ascii(s)
    ensures Utf8(s)
  {
    if s != [] {
      assert s[0] in s && forall b :: b in s[1..] ==> b in s;
      AsciiIsUtf8(s[1..]);
    }
  }

  // Hexadecimal.

  function HexChar(d: nat): Byte
    requires d < 16
  {
    if d < 10 then 48 + d else 87 + d
  }

  function HexDigit(b: Byte): (d: Option<nat>)
    ensures d.Some? ==> d.value < 16
  {
    if 48 <= b <= 57 then Some(b - 48) else if 97 <= b <= 102 then Some(b - 87) else None
  }

  function Hex(s: Bytes): Bytes {
    if s == [] then [] else [HexChar(s[0] / 16), HexChar(s[0] % 16)] + Hex(s[1..])
  }

  function DecodeHex(s: Bytes): Option<Bytes> {
    if s == [] then Some([])
    else if |s| == 1 then None
    else
      match (HexDigit(s[0]), HexDigit(s[1]), DecodeHex(s[2..])) {
        case (Some(high), Some(low), Some(rest)) => Some([16 * high + low] + rest)
        case _ => None
      }
  }

  lemma {:induction false} HexRoundTrip(s: Bytes)
    ensures DecodeHex(Hex(s)) == Some(s)
  {
    if s != [] {
      HexRoundTrip(s[1..]);
      assert Hex(s)[2..] == Hex(s[1..]);
      assert HexDigit(HexChar(s[0] / 16)) == Some(s[0] / 16);
      assert HexDigit(HexChar(s[0] % 16)) == Some(s[0] % 16);
      assert s == [s[0]] + s[1..];
    }
  }

  lemma {:induction false} HexOfDigit(b: Byte)
    requires HexDigit(b).Some?
    ensures HexChar(HexDigit(b).value) == b
  {
  }

  /** Decoding accepts nothing but what encoding writes. */
  lemma {:induction false} DecodeIsInverse(s: Bytes)
    requires DecodeHex(s).Some?
    ensures Hex(DecodeHex(s).value) == s
  {
    if s != [] {
      DecodeIsInverse(s[2..]);
      HexOfDigit(s[0]);
      HexOfDigit(s[1]);
      var rest := DecodeHex(s[2..]).value;
      var b := 16 * HexDigit(s[0]).value + HexDigit(s[1]).value;
      assert ([b] + rest)[1..] == rest;
      assert s == [s[0], s[1]] + s[2..];
    }
  }

  predicate IsHexByte(b: Byte) { 48 <= b <= 57 || 97 <= b <= 102 }

  /** Hexadecimal text holds digits and letters only, so neither separator nor control. */
  lemma {:induction false} HexIsPlain(s: Bytes)
    ensures forall b :: b in Hex(s) ==> IsHexByte(b)
  {
    if s != [] {
      HexIsPlain(s[1..]);
    }
  }

  // Decimal `u64`.

  predicate IsDigit(b: Byte) { 48 <= b <= 57 }

  function Decimal(n: nat): Bytes {
    if n < 10 then [48 + n] else Decimal(n / 10) + [48 + n % 10]
  }

  function Digits(s: Bytes): Option<nat> {
    if s == [] then Some(0)
    else
      var last := s[|s| - 1];
      match Digits(s[..|s| - 1]) {
        case Some(n) => if IsDigit(last) then Some(10 * n + (last - 48)) else None
        case None => None
      }
  }

  /** `str::parse::<u64>`: an optional `+`, at least one digit, and no overflow. */
  function ParseU64(s: Bytes): (r: Option<nat>)
    ensures r.Some? ==> r.value < U64
  {
    if s == [] then None
    else
      match Digits(if s[0] == PLUS && |s| > 1 then s[1..] else s) {
        case Some(n) => if n < U64 then Some(n) else None
        case None => None
      }
  }

  lemma {:induction false} DecimalIsPlain(n: nat)
    ensures Decimal(n) != [] && (forall b :: b in Decimal(n) ==> IsDigit(b))
  {
    if n >= 10 {
      DecimalIsPlain(n / 10);
    }
  }

  lemma {:induction false} DigitsOfDecimal(n: nat)
    ensures Digits(Decimal(n)) == Some(n)
  {
    var s := Decimal(n);
    if n >= 10 {
      DigitsOfDecimal(n / 10);
      assert s[..|s| - 1] == Decimal(n / 10);
    } else {
      assert s[..0] == [];
    }
  }

  lemma {:induction false} DecimalRoundTrip(n: nat)
    requires n < U64
    ensures ParseU64(Decimal(n)) == Some(n)
  {
    DecimalIsPlain(n);
    assert Decimal(n)[0] in Decimal(n);
    DigitsOfDecimal(n);
  }

  /** A number too large is refused. */
  lemma {:induction false} TooLargeIsRefused(n: nat)
    requires n >= U64
    ensures ParseU64(Decimal(n)).None?
  {
    DecimalIsPlain(n);
    assert Decimal(n)[0] in Decimal(n);
    DigitsOfDecimal(n);
  }

  /** A leading plus sign changes nothing, but is no number by itself. */
  lemma {:induction false} PlusIsAllowed(s: Bytes)
    requires s != [] && s[0] != PLUS
    ensures ParseU64([PLUS] + s) == ParseU64(s)
    ensures ParseU64([PLUS]).None? && ParseU64([]).None?
  {
    assert ([PLUS] + s)[1..] == s;
    assert [PLUS][..0] == [];
  }

  /** Anything but digits is refused. */
  lemma {:induction false} DigitsOnly(s: Bytes, i: nat)
    requires Digits(s).Some? && i < |s|
    ensures IsDigit(s[i])
  {
    if i < |s| - 1 {
      DigitsOnly(s[..|s| - 1], i);
    }
  }

  // Fields and lines.

  function Find(s: Bytes, b: Byte): (i: nat)
    ensures i <= |s| && b !in s[..i] && (i < |s| ==> s[i] == b)
  {
    if s == [] then 0 else if s[0] == b then 0 else 1 + Find(s[1..], b)
  }

  function SplitOnce(s: Bytes, b: Byte): Option<(Bytes, Bytes)> {
    var i := Find(s, b);
    if i < |s| then Some((s[..i], s[i + 1..])) else None
  }

  lemma {:induction false} FindInJoin(left: Bytes, b: Byte, right: Bytes)
    requires b !in left
    ensures Find(left + [b] + right, b) == |left|
  {
    var s := left + [b] + right;
    assert s[|left|] == b;
  }

  lemma {:induction false} SplitJoin(left: Bytes, b: Byte, right: Bytes)
    requires b !in left
    ensures SplitOnce(left + [b] + right, b) == Some((left, right))
  {
    FindInJoin(left, b, right);
    var s := left + [b] + right;
    assert s[..|left|] == left && s[|left| + 1..] == right;
  }

  /** `split_terminator('\n')`: a final newline does not start another line. */
  function Lines(s: Bytes): seq<Bytes>
    decreases |s|
  {
    if s == [] then []
    else
      var i := Find(s, NEWLINE);
      if i < |s| then [s[..i]] + Lines(s[i + 1..]) else [s]
  }

  function Unlines(lines: seq<Bytes>): Bytes {
    if lines == [] then [] else lines[0] + [NEWLINE] + Unlines(lines[1..])
  }

  lemma {:induction false} LinesOfUnlines(lines: seq<Bytes>)
    requires forall i :: 0 <= i < |lines| ==> NEWLINE !in lines[i]
    ensures Lines(Unlines(lines)) == lines
  {
    if lines != [] {
      var rest := Unlines(lines[1..]);
      LinesOfUnlines(lines[1..]);
      FindInJoin(lines[0], NEWLINE, rest);
      var s := lines[0] + [NEWLINE] + rest;
      assert s[..|lines[0]|] == lines[0] && s[|lines[0]| + 1..] == rest;
    }
  }

  lemma {:induction false} UnlinesOfMore(lines: seq<Bytes>, line: Bytes)
    ensures Unlines(lines + [line]) == Unlines(lines) + line + [NEWLINE]
  {
    if lines == [] {
      assert lines + [line] == [line] && [line][1..] == [];
      assert line + [NEWLINE] + [] == line + [NEWLINE];
    } else {
      UnlinesOfMore(lines[1..], line);
      assert (lines + [line])[1..] == lines[1..] + [line];
    }
  }
}
