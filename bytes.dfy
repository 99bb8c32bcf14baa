/** Bytes as the macOS keychain dump shows them: `bytes.fromhex` and strict
    UTF-8 decoding (`bytes.decode('utf-8')`), with their inverses. */
module Bytes {
  import opened Py

  type byte = x: int | 0 <= x < 256

  // ---------------------------------------------------------------------------
  // Hexadecimal

  /** The value of a hexadecimal digit in either case. */
  function HexValue(c: char): Option<nat> {
    if '0' <= c <= '9' then Some(c as int - '0' as int)
    else if 'a' <= c <= 'f' then Some(c as int - 'a' as int + 10)
    else if 'A' <= c <= 'F' then Some(c as int - 'A' as int + 10)
    else None
  }

  /** The ASCII whitespace `bytes.fromhex` skips between byte pairs. */
  predicate IsAsciiSpace(c: char) {
    c == ' ' || c == '\t' || c == '\n' || c == '\r' || c as int == 0x0B || c as int == 0x0C
  }

  /** `bytes.fromhex(s)`: pairs of hexadecimal digits, optionally separated by
      ASCII whitespace; any other character, or a digit without a partner,
      raises `ValueError`. */
  function FromHex(s: string): (r: Result<seq<byte>>)
    ensures r.Ok? ==> 2 * |r.value| <= |s|
    ensures r.Err? ==> r.error == ValueError
  {
    if s == [] then Ok([])
    else if IsAsciiSpace(s[0]) then FromHex(s[1..])
    else if |s| < 2 || HexValue(s[0]).None? || HexValue(s[1]).None? then Err(ValueError)
    else
      var hi, lo := HexValue(s[0]).value, HexValue(s[1]).value;
      match FromHex(s[2..])
      case Err(e) => Err(e)
      case Ok(rest) => Ok([16 * hi + lo] + rest)
  }

  function HexDigit(d: nat): char requires d < 16 {
    if d < 10 then ('0' as int + d) as char else ('a' as int + d - 10) as char
  }

  /** `b.hex()`: two lower-case digits per byte. */
  function ToHex(b: seq<byte>): (r: string)
    ensures |r| == 2 * |b|
  {
    if b == [] then "" else [HexDigit(b[0] / 16), HexDigit(b[0] % 16)] + ToHex(b[1..])
  }

  lemma HexDigitValue(d: nat)
    requires d < 16
    ensures HexValue(HexDigit(d)) == Some(d) && !IsAsciiSpace(HexDigit(d))
  {
  }

  /** Reading back the hexadecimal form of any bytes gives those bytes. */
  lemma {:induction false} FromHexToHex(b: seq<byte>)
    ensures FromHex(ToHex(b)) == Ok(b)
  {
    if b != [] {
      FromHexToHex(b[1..]);
      FromHexPair(b);
    }
  }

  /** The first byte's two digits decode in front of the rest. */
  lemma FromHexPair(b: seq<byte>)
    requires b != [] && FromHex(ToHex(b[1..])) == Ok(b[1..])
    ensures FromHex(ToHex(b)) == Ok(b)
  {
    var hi, lo := b[0] / 16, b[0] % 16;
    assert ToHex(b) == [HexDigit(hi), HexDigit(lo)] + ToHex(b[1..]);
    DigitPair(hi, lo, ToHex(b[1..]));
    assert 16 * hi + lo == b[0];
    assert b == [b[0]] + b[1..];
  }

  /** Two digits in front decode to one byte in front. */
  lemma DigitPair(hi: nat, lo: nat, t: string)
    requires hi < 16 && lo < 16
    ensures FromHex([HexDigit(hi), HexDigit(lo)] + t) ==
      match FromHex(t)
      case Err(e) => Err(e)
      case Ok(rest) => Ok([16 * hi + lo] + rest)
  {
    var s := [HexDigit(hi), HexDigit(lo)] + t;
    HexDigitValue(hi);
    HexDigitValue(lo);
    assert s[0] == HexDigit(hi) && s[1] == HexDigit(lo) && s[2..] == t;
  }

  /** The hexadecimal form has no whitespace, so it ends at the first space. */
  lemma ToHexNoSpace(b: seq<byte>)
    ensures ' ' !in ToHex(b)
  {
    if b != [] {
      HexDigitValue(b[0] / 16);
      HexDigitValue(b[0] % 16);
      ToHexNoSpace(b[1..]);
    }
  }

  // ---------------------------------------------------------------------------
  // UTF-8

  predicate IsContinuation(x: byte) { 0x80 <= x <= 0xBF }

  /** The first character of well-formed UTF-8 and how many bytes it takes
      (the well-formed byte sequences of the Unicode standard, table 3-7):
      overlong forms, surrogates and values above U+10FFFF are rejected. */
  function DecodeFirst(b: seq<byte>): (r: Option<(char, nat)>)
    requires b != []
    ensures r.Some? ==> 1 <= r.value.1 <= |b| && r.value.1 <= 4
  {
    var b0 := b[0] as int;
    if b0 < 0x80 then Some((b0 as char, 1))
    else if 0xC2 <= b0 <= 0xDF then
      if |b| < 2 || !IsContinuation(b[1]) then None
      else Some((((b0 - 0xC0) * 64 + (b[1] as int - 0x80)) as char, 2))
    else if 0xE0 <= b0 <= 0xEF then
      var lo := if b0 == 0xE0 then 0xA0 else 0x80;
      var hi := if b0 == 0xED then 0x9F else 0xBF;
      if |b| < 3 || !(lo <= b[1] <= hi) || !IsContinuation(b[2]) then None
      else Some((((b0 - 0xE0) * 4096 + (b[1] as int - 0x80) * 64 + (b[2] as int - 0x80)) as char, 3))
    else if 0xF0 <= b0 <= 0xF4 then
      var lo := if b0 == 0xF0 then 0x90 else 0x80;
      var hi := if b0 == 0xF4 then 0x8F else 0xBF;
      if |b| < 4 || !(lo <= b[1] <= hi) || !IsContinuation(b[2]) || !IsContinuation(b[3]) then None
      else Some((((b0 - 0xF0) * 262144 + (b[1] as int - 0x80) * 4096 + (b[2] as int - 0x80) * 64 + (b[3] as int - 0x80)) as char, 4))
    else None
  }

  /** `b.decode('utf-8')`: `None` where Python raises `UnicodeDecodeError`. */
  function Utf8Decode(b: seq<byte>): (r: Option<string>)
    decreases |b|
    ensures r.Some? ==> |r.value| <= |b|
    ensures (forall i :: 0 <= i < |b| ==> b[i] < 0x80) ==>
      r.Some? && |r.value| == |b| && forall i :: 0 <= i < |b| ==> r.value[i] as int == b[i]
  {
    if b == [] then Some("")
    else match DecodeFirst(b)
      case None => None
      case Some((c, n)) =>
        match Utf8Decode(b[n..])
        case None => None
        case Some(rest) => Some([c] + rest)
  }

  /** The UTF-8 form of one character. */
  function EncodeChar(c: char): (r: seq<byte>)
    ensures 1 <= |r| <= 4
  {
    var n := c as int;
    if n < 0x80 then [n]
    else if n < 0x800 then [0xC0 + n / 64, 0x80 + n % 64]
    else if n < 0x10000 then [0xE0 + n / 4096, 0x80 + (n / 64) % 64, 0x80 + n % 64]
    else [0xF0 + n / 262144, 0x80 + (n / 4096) % 64, 0x80 + (n / 64) % 64, 0x80 + n % 64]
  }

  /** `s.encode('utf-8')`. */
  function Utf8Encode(s: string): seq<byte> {
    if s == [] then [] else EncodeChar(s[0]) + Utf8Encode(s[1..])
  }

  lemma DivMod64(n: nat)
    ensures n == (n / 64) * 64 + n % 64 && 0 <= n % 64 < 64
  {
  }

  lemma Decompose3(n: nat)
    requires n < 0x10000
    ensures n == (n / 4096) * 4096 + ((n / 64) % 64) * 64 + n % 64
  {
    DivMod64(n);
    DivMod64(n / 64);
    assert (n / 64) / 64 == n / 4096;
  }

  lemma Decompose4(n: nat)
    requires n < 0x110000
    ensures n == (n / 262144) * 262144 + ((n / 4096) % 64) * 4096 + ((n / 64) % 64) * 64 + n % 64
  {
    DivMod64(n);
    DivMod64(n / 64);
    DivMod64(n / 4096);
    assert (n / 64) / 64 == n / 4096;
    assert (n / 4096) / 64 == n / 262144;
  }

  /** Decoding the first character of an encoded character gives it back. */
  lemma DecodeEncodeChar(c: char, rest: seq<byte>)
    ensures DecodeFirst(EncodeChar(c) + rest) == Some((c, |EncodeChar(c)|))
  {
    var n := c as int;
    var b := EncodeChar(c) + rest;
    if n < 0x80 {
    } else if n < 0x800 {
      DivMod64(n);
      assert (b[0] as int - 0xC0) * 64 + (b[1] as int - 0x80) == n;
    } else if n < 0x10000 {
      DecodeEncodeThree(c, rest);
    } else {
      DecodeEncodeFour(c, rest);
    }
  }

  lemma DecodeEncodeThree(c: char, rest: seq<byte>)
    requires 0x800 <= c as int < 0x10000
    ensures DecodeFirst(EncodeChar(c) + rest) == Some((c, 3))
  {
    var n := c as int;
    var b := EncodeChar(c) + rest;
    Decompose3(n);
    assert (b[0] as int - 0xE0) * 4096 + (b[1] as int - 0x80) * 64 + (b[2] as int - 0x80) == n;
    assert b[0] == 0xE0 ==> b[1] >= 0xA0;
    assert b[0] == 0xED ==> b[1] <= 0x9F;
  }

  lemma DecodeEncodeFour(c: char, rest: seq<byte>)
    requires 0x10000 <= c as int
    ensures DecodeFirst(EncodeChar(c) + rest) == Some((c, 4))
  {
    var n := c as int;
    var b := EncodeChar(c) + rest;
    Decompose4(n);
    assert (b[0] as int - 0xF0) * 262144 + (b[1] as int - 0x80) * 4096 + (b[2] as int - 0x80) * 64 + (b[3] as int - 0x80) == n;
    assert b[0] == 0xF0 ==> b[1] >= 0x90;
    assert b[0] == 0xF4 ==> b[1] <= 0x8F;
  }

  /** Decoding the UTF-8 form of a string gives the string back. */
  lemma {:induction false} Utf8RoundTrip(s: string)
    ensures Utf8Decode(Utf8Encode(s)) == Some(s)
  {
    if s != [] {
      var e := EncodeChar(s[0]);
      var tail := Utf8Encode(s[1..]);
      DecodeEncodeChar(s[0], tail);
      assert (e + tail)[|e|..] == tail;
      Utf8RoundTrip(s[1..]);
      assert s == [s[0]] + s[1..];
    }
  }
}
