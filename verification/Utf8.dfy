/** Text as bytes: what is hashed, compared with the size threshold, and written to blob files. */
module Utf8 {

  type Byte = b: int | 0 <= b < 0x100
  type Bytes = seq<Byte>

  const REPLACEMENT: char := '\U{FFFD}'

  function EncodeChar(c: char): (b: Bytes)
    ensures 1 <= |b| <= 4
  {
    var n := c as int;
    if n < 0x80 then [n]
    else if n < 0x800 then [0xC0 + n / 0x40, 0x80 + n % 0x40]
    else if n < 0x1_0000 then [0xE0 + n / 0x1000, 0x80 + n / 0x40 % 0x40, 0x80 + n % 0x40]
    else [0xF0 + n / 0x4_0000, 0x80 + n / 0x1000 % 0x40, 0x80 + n / 0x40 % 0x40, 0x80 + n % 0x40]
  }

  function Encode(s: string): Bytes {
    if s == "" then [] else EncodeChar(s[0]) + Encode(s[1..])
  }

  function Scalar(n: int): char {
    if 0 <= n < 0xD800 || 0xE000 <= n < 0x11_0000 then n as char else REPLACEMENT
  }

  function WidthOf(lead: Byte): nat {
    if lead < 0xC0 then 1 else if lead < 0xE0 then 2 else if lead < 0xF0 then 3 else 4
  }

  /** The first character and the number of bytes it takes. */
  function DecodeFirst(b: Bytes): (r: (char, nat))
    requires b != []
    ensures 1 <= r.1 <= |b|
  {
    var w := WidthOf(b[0]);
    if |b| < w then (REPLACEMENT, 1)
    else if w == 1 then (if b[0] < 0x80 then b[0] as char else REPLACEMENT, 1)
    else if w == 2 then (Scalar((Num(b, 0) - 0xC0) * 0x40 + Low(b, 1)), 2)
    else if w == 3 then (Scalar((Num(b, 0) - 0xE0) * 0x1000 + Low(b, 1) * 0x40 + Low(b, 2)), 3)
    else (Scalar((Num(b, 0) - 0xF0) * 0x4_0000 + Low(b, 1) * 0x1000 + Low(b, 2) * 0x40 + Low(b, 3)), 4)
  }

  function Num(b: Bytes, i: nat): int
    requires i < |b|
  {
    b[i]
  }

  /** The six payload bits of a continuation byte. */
  function Low(b: Bytes, i: nat): int
    requires i < |b|
  {
    Num(b, i) % 0x40
  }

  function Decode(b: Bytes): string
    decreases |b|
  {
    if b == [] then ""
    else
      var (c, w) := DecodeFirst(b);
      [c] + Decode(b[w..])
  }

  lemma DecodeEncodedChar(c: char, rest: Bytes)
    ensures DecodeFirst(EncodeChar(c) + rest) == (c, |EncodeChar(c)|)
  {
    var n := c as int;
    if n >= 0x1_0000 {
      DecodeFour(c, rest);
    } else if n >= 0x800 {
      DecodeThree(c, rest);
    } else if n >= 0x80 {
      LowBits(n % 0x40);
      assert n == n / 0x40 * 0x40 + n % 0x40;
    }
  }

  lemma DecodeThree(c: char, rest: Bytes)
    requires 0x800 <= c as int < 0x1_0000
    ensures DecodeFirst(EncodeChar(c) + rest) == (c, 3)
  {
    var n := c as int;
    var b := EncodeChar(c) + rest;
    LowBits(n / 0x40 % 0x40);
    LowBits(n % 0x40);
    assert Num(b, 0) == 0xE0 + n / 0x1000 && Low(b, 1) == n / 0x40 % 0x40 && Low(b, 2) == n % 0x40;
    ThreeParts(n);
  }

  lemma DecodeFour(c: char, rest: Bytes)
    requires 0x1_0000 <= c as int
    ensures DecodeFirst(EncodeChar(c) + rest) == (c, 4)
  {
    var n := c as int;
    var b := EncodeChar(c) + rest;
    LowBits(n / 0x1000 % 0x40);
    LowBits(n / 0x40 % 0x40);
    LowBits(n % 0x40);
    assert Num(b, 0) == 0xF0 + n / 0x4_0000 && Low(b, 1) == n / 0x1000 % 0x40;
    assert Low(b, 2) == n / 0x40 % 0x40 && Low(b, 3) == n % 0x40;
    FourParts(n);
  }

  lemma LowBits(x: int)
    requires 0 <= x < 0x40
    ensures (0x80 + x) % 0x40 == x
  {
  }

  lemma ThreeParts(n: nat)
    ensures n == n / 0x1000 * 0x1000 + n / 0x40 % 0x40 * 0x40 + n % 0x40
  {
  }

  lemma FourParts(n: nat)
    ensures n == n / 0x4_0000 * 0x4_0000 + n / 0x1000 % 0x40 * 0x1000 + n / 0x40 % 0x40 * 0x40 + n % 0x40
  {
    var q := n / 0x1000;
    assert q == n / 0x40 / 0x40;
    ThreeParts(n);
    assert n / 0x4_0000 == q / 0x40;
    assert q == q / 0x40 * 0x40 + q % 0x40;
  }

  /** Bytes written for a text read back as that text. */
  lemma {:induction false} DecodeEncode(s: string)
    ensures Decode(Encode(s)) == s
  {
    if s != "" {
      DecodeEncodedChar(s[0], Encode(s[1..]));
      assert Encode(s)[|EncodeChar(s[0])|..] == Encode(s[1..]);
      DecodeEncode(s[1..]);
    }
  }

  lemma EncodeInjective(s: string, t: string)
    requires Encode(s) == Encode(t)
    ensures s == t
  {
    DecodeEncode(s);
    DecodeEncode(t);
  }

  // ---------- the shape of the encoding: RFC 3629, section 3 ----------

  predicate Continuation(b: Byte) {
    0x80 <= b < 0xC0
  }

  /** The number of bytes by the range of the character, a lead byte that tells it, and continuation bytes. */
  lemma EncodedShape(c: char)
    ensures var n, b := c as int, EncodeChar(c);
            && |b| == (if n <= 0x7F then 1 else if n <= 0x7FF then 2 else if n <= 0xFFFF then 3 else 4)
            && (|b| == 1 ==> b[0] == n)
            && (|b| == 2 ==> 0xC2 <= b[0] <= 0xDF) && (|b| == 3 ==> 0xE0 <= b[0] <= 0xEF)
            && (|b| == 4 ==> 0xF0 <= b[0] <= 0xF4)
            && forall k :: 1 <= k < |b| ==> Continuation(b[k])
  {
  }
}
