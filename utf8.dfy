/**
 * `str.encode("utf-8")`, and a strict decoder used as its partner: the
 * decoder takes back exactly what the encoder produced.
 */
module Utf8 {
  import opened Wrappers
  import opened Bytes

  /** The UTF-8 form of one Unicode scalar value: 1 to 4 octets by magnitude. */
  function EncodeChar(c: char): (b: seq<uint8>)
    ensures 1 <= |b| <= 4
    ensures (|b| == 1) == (c as int < 0x80)
  {
    var n := c as int;
    if n < 0x80 then [n as uint8]
    else if n < 0x800 then [(0xC0 + n / 64) as uint8, (0x80 + n % 64) as uint8]
    else if n < 0x10000 then [(0xE0 + n / 4096) as uint8, (0x80 + (n / 64) % 64) as uint8, (0x80 + n % 64) as uint8]
    else [(0xF0 + n / 262144) as uint8, (0x80 + (n / 4096) % 64) as uint8, (0x80 + (n / 64) % 64) as uint8, (0x80 + n % 64) as uint8]
  }

  /** `s.encode("utf-8")`. */
  function Encode(s: string): seq<uint8>
    decreases |s|
  {
    if s == [] then [] else EncodeChar(s[0]) + Encode(s[1..])
  }

  predicate IsContinuation(b: uint8) {
    0x80 <= b < 0xC0
  }

  predicate IsScalar(n: int) {
    0 <= n < 0xD800 || 0xE000 <= n < 0x11_0000
  }

  /** Decodes one character and says how many octets it used; rejects malformed, overlong and surrogate forms. */
  function DecodeFirst(b: seq<uint8>): (r: Option<(char, nat)>)
    ensures r.Some? ==> 1 <= r.value.1 <= |b| && r.value.1 <= 4
  {
    if b == [] then None
    else if b[0] < 0x80 then Some((b[0] as int as char, 1))
    else if 0xC0 <= b[0] < 0xE0 && |b| >= 2 && IsContinuation(b[1]) then
      var n := (b[0] as int - 0xC0) * 64 + (b[1] as int - 0x80);
      if 0x80 <= n then Some((n as char, 2)) else None
    else if 0xE0 <= b[0] < 0xF0 && |b| >= 3 && IsContinuation(b[1]) && IsContinuation(b[2]) then
      var n := (b[0] as int - 0xE0) * 4096 + (b[1] as int - 0x80) * 64 + (b[2] as int - 0x80);
      if 0x800 <= n && IsScalar(n) then Some((n as char, 3)) else None
    else if 0xF0 <= b[0] < 0xF8 && |b| >= 4 && IsContinuation(b[1]) && IsContinuation(b[2]) && IsContinuation(b[3]) then
      var n := (b[0] as int - 0xF0) * 262144 + (b[1] as int - 0x80) * 4096 + (b[2] as int - 0x80) * 64 + (b[3] as int - 0x80);
      if 0x1_0000 <= n && IsScalar(n) then Some((n as char, 4)) else None
    else None
  }

  /** Strict UTF-8 decoding of a whole octet string. */
  function Decode(b: seq<uint8>): Option<string>
    decreases |b|
  {
    if b == [] then Some([])
    else match DecodeFirst(b)
      case None => None
      case Some((c, len)) =>
        match Decode(b[len..])
        case None => None
        case Some(rest) => Some([c] + rest)
  }

  lemma DecodeOneChar(c: char, rest: seq<uint8>)
    ensures DecodeFirst(EncodeChar(c) + rest) == Some((c, |EncodeChar(c)|))
  {
    var n := c as int;
    var b := EncodeChar(c) + rest;
    if n < 0x80 {
    } else if n < 0x800 {
      DecodeTwo(c, b);
    } else if n < 0x10000 {
      DecodeThree(c, b);
    } else {
      DecodeFour(c, b);
    }
  }

  lemma DecodeTwo(c: char, b: seq<uint8>)
    requires 0x80 <= c as int < 0x800
    requires |b| >= 2 && b[0] as int == 0xC0 + c as int / 64 && b[1] as int == 0x80 + c as int % 64
    ensures DecodeFirst(b) == Some((c, 2))
  {
    var n := c as int;
    assert (n / 64) * 64 + n % 64 == n;
  }

  lemma DecodeThree(c: char, b: seq<uint8>)
    requires 0x800 <= c as int < 0x10000
    requires |b| >= 3 && b[0] as int == 0xE0 + c as int / 4096
    requires b[1] as int == 0x80 + (c as int / 64) % 64 && b[2] as int == 0x80 + c as int % 64
    ensures DecodeFirst(b) == Some((c, 3))
  {
    var n := c as int;
    var hi, mid, lo := n / 4096, (n / 64) % 64, n % 64;
    assert n / 64 == hi * 64 + mid;
    assert n == (n / 64) * 64 + lo;
    assert hi * 4096 + mid * 64 + lo == n;
    assert IsScalar(n);
  }

  lemma DecodeFour(c: char, b: seq<uint8>)
    requires 0x10000 <= c as int
    requires |b| >= 4 && b[0] as int == 0xF0 + c as int / 262144
    requires b[1] as int == 0x80 + (c as int / 4096) % 64 && b[2] as int == 0x80 + (c as int / 64) % 64
    requires b[3] as int == 0x80 + c as int % 64
    ensures DecodeFirst(b) == Some((c, 4))
  {
    var n := c as int;
    var top, hi, mid, lo := n / 262144, (n / 4096) % 64, (n / 64) % 64, n % 64;
    assert n / 4096 == top * 64 + hi;
    assert n / 64 == (n / 4096) * 64 + mid;
    assert n == (n / 64) * 64 + lo;
    assert top * 262144 + hi * 4096 + mid * 64 + lo == n;
    assert IsScalar(n);
  }

  /** Decoding the encoding of any string gives the string back. */
  lemma {:induction false} DecodeEncode(s: string)
    ensures Decode(Encode(s)) == Some(s)
    decreases |s|
  {
    if s != [] {
      var b := Encode(s);
      DecodeOneChar(s[0], Encode(s[1..]));
      assert b[|EncodeChar(s[0])|..] == Encode(s[1..]);
      DecodeEncode(s[1..]);
      assert [s[0]] + s[1..] == s;
    }
  }

  /** ASCII text encodes to its own code points. */
  lemma {:induction false} EncodeAscii(s: string)
    requires IsAscii(s)
    ensures Encode(s) == AsciiBytes(s)
    decreases |s|
  {
    if s != [] {
      EncodeAscii(s[1..]);
      assert AsciiBytes(s) == [s[0] as int as uint8] + AsciiBytes(s[1..]);
    }
  }
}
