/** Byte encodings the argument rewriter depends on: the UTF-8 form of a
    Rust `&str` and the standard base64 encoding of RFC 4648, section 4
    (alphabet of Table 1, `=` padding), which is what
    `base64::prelude::BASE64_STANDARD.encode` produces. */
module Encoding {
  import opened Wrappers

  type Byte = x: int | 0 <= x < 256

  // UTF-8

  predicate IsScalar(n: int) {
    (0 <= n < 0xD800) || (0xE000 <= n < 0x11_0000)
  }

  /** The UTF-8 bytes of one Unicode scalar value. */
  function EncodeChar(c: char): (bs: seq<Byte>)
    ensures 1 <= |bs| <= 4
    ensures (c as int < 0x80) <==> |bs| == 1
    ensures |bs| == 1 ==> bs[0] == c as int
  {
    var n := c as int;
    if n < 0x80 then [n]
    else if n < 0x800 then [0xC0 + n / 64, 0x80 + n % 64]
    else if n < 0x1_0000 then [0xE0 + n / 4096, 0x80 + (n / 64) % 64, 0x80 + n % 64]
    else [0xF0 + n / 262144, 0x80 + (n / 4096) % 64, 0x80 + (n / 64) % 64, 0x80 + n % 64]
  }

  /** The UTF-8 bytes of a string, as Rust stores a `&str`. */
  function Utf8Encode(s: string): (bs: seq<Byte>)
    ensures |s| <= |bs| <= 4 * |s|
  {
    if |s| == 0 then [] else EncodeChar(s[0]) + Utf8Encode(s[1..])
  }

  predicate IsContinuation(b: Byte) { 0x80 <= b < 0xC0 }

  /** Decodes the first scalar value of a byte sequence and says how many
      bytes it took, or fails on a malformed lead or continuation byte or
      a value that is not a scalar. Overlong forms are accepted. */
  function DecodeFirst(bs: seq<Byte>): (r: Option<(char, nat)>)
    ensures r.Some? ==> 1 <= r.value.1 <= |bs|
  {
    if |bs| == 0 then None
    else
      var b0: int := bs[0];
      if b0 < 0x80 then Some((b0 as char, 1))
      else if 0xC0 <= b0 < 0xE0 && |bs| >= 2 && IsContinuation(bs[1]) then
        var n := (b0 - 0xC0) * 64 + (bs[1] as int - 0x80);
        if IsScalar(n) then Some((n as char, 2)) else None
      else if 0xE0 <= b0 < 0xF0 && |bs| >= 3 && IsContinuation(bs[1]) && IsContinuation(bs[2]) then
        var n := (b0 - 0xE0) * 4096 + (bs[1] as int - 0x80) * 64 + (bs[2] as int - 0x80);
        if IsScalar(n) then Some((n as char, 3)) else None
      else if 0xF0 <= b0 < 0xF8 && |bs| >= 4 && IsContinuation(bs[1]) && IsContinuation(bs[2])
              && IsContinuation(bs[3]) then
        var n := (b0 - 0xF0) * 262144 + (bs[1] as int - 0x80) * 4096 + (bs[2] as int - 0x80) * 64 + (bs[3] as int - 0x80);
        if IsScalar(n) then Some((n as char, 4)) else None
      else None
  }

  function Utf8Decode(bs: seq<Byte>): Option<string>
    decreases |bs|
  {
    if |bs| == 0 then Some("")
    else
      match DecodeFirst(bs)
      case None => None
      case Some((c, k)) =>
        match Utf8Decode(bs[k..])
        case None => None
        case Some(rest) => Some([c] + rest)
  }

  lemma DecodeEncodeChar(c: char, rest: seq<Byte>)
    ensures DecodeFirst(EncodeChar(c) + rest) == Some((c, |EncodeChar(c)|))
  {
    var n := c as int;
    if n < 0x80 {
      assert (EncodeChar(c) + rest)[0] == n;
    } else if n < 0x800 {
      DecodeTwo(c, rest);
    } else if n < 0x1_0000 {
      DecodeThree(c, rest);
    } else {
      DecodeFour(c, rest);
    }
  }

  lemma DecodeTwo(c: char, rest: seq<Byte>)
    requires 0x80 <= c as int < 0x800
    ensures DecodeFirst(EncodeChar(c) + rest) == Some((c, 2))
  {
    var n := c as int;
    var bs := EncodeChar(c) + rest;
    var b0, b1 := 0xC0 + n / 64, 0x80 + n % 64;
    assert bs[0] == b0 && bs[1] == b1;
    assert (b0 - 0xC0) * 64 + (b1 - 0x80) == n;
  }

  lemma DecodeThree(c: char, rest: seq<Byte>)
    requires 0x800 <= c as int < 0x1_0000
    ensures DecodeFirst(EncodeChar(c) + rest) == Some((c, 3))
  {
    var n := c as int;
    var bs := EncodeChar(c) + rest;
    var b0, b1, b2 := 0xE0 + n / 4096, 0x80 + (n / 64) % 64, 0x80 + n % 64;
    assert bs[0] == b0 && bs[1] == b1 && bs[2] == b2;
    Regroup3(n);
    assert (b0 - 0xE0) * 4096 + (b1 - 0x80) * 64 + (b2 - 0x80) == n;
  }

  lemma DecodeFour(c: char, rest: seq<Byte>)
    requires 0x1_0000 <= c as int
    ensures DecodeFirst(EncodeChar(c) + rest) == Some((c, 4))
  {
    var n := c as int;
    var bs := EncodeChar(c) + rest;
    var b0, b1, b2, b3 := 0xF0 + n / 262144, 0x80 + (n / 4096) % 64, 0x80 + (n / 64) % 64, 0x80 + n % 64;
    assert bs[0] == b0 && bs[1] == b1 && bs[2] == b2 && bs[3] == b3;
    Regroup4(n);
    assert (b0 - 0xF0) * 262144 + (b1 - 0x80) * 4096 + (b2 - 0x80) * 64 + (b3 - 0x80) == n;
  }

  lemma Regroup3(n: nat)
    ensures (n / 4096) * 4096 + ((n / 64) % 64) * 64 + n % 64 == n
  {
    var q := n / 64;
    assert n == q * 64 + n % 64;
    assert q == (q / 64) * 64 + q % 64;
    assert q / 64 == n / 4096;
  }

  lemma Regroup4(n: nat)
    ensures (n / 262144) * 262144 + ((n / 4096) % 64) * 4096 + ((n / 64) % 64) * 64 + n % 64 == n
  {
    var q := n / 4096;
    Regroup3(n);
    assert q == (q / 64) * 64 + q % 64;
    assert q / 64 == n / 262144;
  }

  /** Decoding the UTF-8 form of a string gives the string back, so
      distinct strings have distinct byte forms. */
  lemma {:induction false} Utf8RoundTrip(s: string)
    ensures Utf8Decode(Utf8Encode(s)) == Some(s)
  {
    if |s| > 0 {
      var head := EncodeChar(s[0]);
      var tail := Utf8Encode(s[1..]);
      DecodeEncodeChar(s[0], tail);
      assert (head + tail)[|head|..] == tail;
      Utf8RoundTrip(s[1..]);
      assert [s[0]] + s[1..] == s;
    }
  }

  // Base64, RFC 4648 section 4

  type Sextet = x: int | 0 <= x < 64

  /** Table 1 of RFC 4648: the character for a 6-bit value. */
  function AlphabetChar(v: Sextet): (c: char)
    ensures c != '='
  {
    if v < 26 then ('A' as int + v) as char
    else if v < 52 then ('a' as int + v - 26) as char
    else if v < 62 then ('0' as int + v - 52) as char
    else if v == 62 then '+'
    else '/'
  }

  /** The 6-bit value of an alphabet character, or None: the inverse of
      Table 1. */
  function AlphabetValue(c: char): (r: Option<Sextet>)
    ensures r.Some? ==> AlphabetChar(r.value) == c
  {
    if 'A' <= c <= 'Z' then Some(c as int - 'A' as int)
    else if 'a' <= c <= 'z' then Some(c as int - 'a' as int + 26)
    else if '0' <= c <= '9' then Some(c as int - '0' as int + 52)
    else if c == '+' then Some(62)
    else if c == '/' then Some(63)
    else None
  }

  lemma AlphabetValueOfChar(v: Sextet)
    ensures AlphabetValue(AlphabetChar(v)) == Some(v)
  {
  }

  /** The four characters for a full group of three bytes. */
  function EncodeGroup(b0: Byte, b1: Byte, b2: Byte): (s: string)
    ensures |s| == 4
  {
    [AlphabetChar(b0 / 4), AlphabetChar((b0 % 4) * 16 + b1 / 16),
     AlphabetChar((b1 % 16) * 4 + b2 / 64), AlphabetChar(b2 % 64)]
  }

  /** Standard, padded base64 encoding. */
  function Base64Encode(bs: seq<Byte>): (s: string)
    ensures |bs| >= 3 ==> |s| >= 4
  {
    if |bs| == 0 then ""
    else if |bs| == 1 then
      [AlphabetChar(bs[0] / 4), AlphabetChar((bs[0] % 4) * 16), '=', '=']
    else if |bs| == 2 then
      [AlphabetChar(bs[0] / 4), AlphabetChar((bs[0] % 4) * 16 + bs[1] / 16),
       AlphabetChar((bs[1] % 16) * 4), '=']
    else
      EncodeGroup(bs[0], bs[1], bs[2]) + Base64Encode(bs[3..])
  }

  /** Every started group of three bytes takes four characters. */
  lemma {:induction false} Base64Length(bs: seq<Byte>)
    ensures |Base64Encode(bs)| == 4 * ((|bs| + 2) / 3)
    decreases |bs|
  {
    var n := |bs|;
    if n >= 3 {
      Base64Length(bs[3..]);
      GroupCount(n);
    } else {
      assert (n + 2) / 3 == if n == 0 then 0 else 1;
    }
  }

  lemma GroupCount(n: nat)
    requires n >= 3
    ensures 4 * ((n + 2) / 3) == 4 + 4 * ((n - 3 + 2) / 3)
  {
  }

  /** Decodes four characters that hold three bytes. */
  function DecodeGroup(c0: char, c1: char, c2: char, c3: char): Option<seq<Byte>> {
    var v0, v1, v2, v3 := AlphabetValue(c0), AlphabetValue(c1), AlphabetValue(c2), AlphabetValue(c3);
    if v0.Some? && v1.Some? && v2.Some? && v3.Some? then
      var s0, s1, s2, s3: int := v0.value, v1.value, v2.value, v3.value;
      Some([s0 * 4 + s1 / 16, (s1 % 16) * 16 + s2 / 4, (s2 % 4) * 64 + s3])
    else None
  }

  /** Decodes padded base64 text, or fails on a character outside the
      alphabet or a length that is not a multiple of four. */
  function Base64Decode(s: string): Option<seq<Byte>>
    decreases |s|
  {
    if |s| == 0 then Some([])
    else if |s| < 4 then None
    else if |s| == 4 && s[2] == '=' && s[3] == '=' then
      var v0, v1 := AlphabetValue(s[0]), AlphabetValue(s[1]);
      if v0.Some? && v1.Some? then Some([v0.value as int * 4 + v1.value as int / 16]) else None
    else if |s| == 4 && s[3] == '=' then
      var v0, v1, v2 := AlphabetValue(s[0]), AlphabetValue(s[1]), AlphabetValue(s[2]);
      if v0.Some? && v1.Some? && v2.Some? then
        var s0, s1, s2: int := v0.value, v1.value, v2.value;
        Some([s0 * 4 + s1 / 16, (s1 % 16) * 16 + s2 / 4])
      else None
    else
      var g := DecodeGroup(s[0], s[1], s[2], s[3]);
      var rest := Base64Decode(s[4..]);
      if g.Some? && rest.Some? then Some(g.value + rest.value) else None
  }

  /** The bit regrouping of a three-byte group is undone by decoding. */
  lemma RegroupBytes(b0: Byte, b1: Byte, b2: Byte)
    ensures var s1 := (b0 % 4) * 16 + b1 / 16; b0 == (b0 / 4) * 4 + s1 / 16
    ensures var s1 := (b0 % 4) * 16 + b1 / 16; var s2 := (b1 % 16) * 4 + b2 / 64;
            b1 == (s1 % 16) * 16 + s2 / 4
    ensures var s2 := (b1 % 16) * 4 + b2 / 64; b2 == (s2 % 4) * 64 + b2 % 64
  {
    var s1 := (b0 % 4) * 16 + b1 / 16;
    var s2 := (b1 % 16) * 4 + b2 / 64;
    assert s1 / 16 == b0 % 4 && s1 % 16 == b1 / 16;
    assert s2 / 4 == b1 % 16 && s2 % 4 == b2 / 64;
  }

  lemma DecodeEncodeGroup(b0: Byte, b1: Byte, b2: Byte)
    ensures var g := EncodeGroup(b0, b1, b2); DecodeGroup(g[0], g[1], g[2], g[3]) == Some([b0, b1, b2])
  {
    var s0, s1, s2, s3 := b0 / 4, (b0 % 4) * 16 + b1 / 16, (b1 % 16) * 4 + b2 / 64, b2 % 64;
    AlphabetValueOfChar(s0);
    AlphabetValueOfChar(s1);
    AlphabetValueOfChar(s2);
    AlphabetValueOfChar(s3);
    RegroupBytes(b0, b1, b2);
  }

  lemma RoundTripOne(bs: seq<Byte>)
    requires |bs| == 1
    ensures Base64Decode(Base64Encode(bs)) == Some(bs)
  {
    var b := bs[0];
    var s0, s1 := b / 4, (b % 4) * 16;
    AlphabetValueOfChar(s0);
    AlphabetValueOfChar(s1);
    assert Base64Encode(bs) == [AlphabetChar(s0), AlphabetChar(s1), '=', '='];
    DecodeTwoPads(AlphabetChar(s0), AlphabetChar(s1), s0, s1);
    OneByte(b);
    assert [b] == bs;
  }

  lemma DecodeTwoPads(c0: char, c1: char, v0: Sextet, v1: Sextet)
    requires AlphabetValue(c0) == Some(v0) && AlphabetValue(c1) == Some(v1)
    ensures Base64Decode([c0, c1, '=', '=']) == Some([v0 * 4 + v1 / 16])
  {
  }

  lemma DecodeOnePad(c0: char, c1: char, c2: char, v0: Sextet, v1: Sextet, v2: Sextet, b0: Byte, b1: Byte)
    requires AlphabetValue(c0) == Some(v0) && AlphabetValue(c1) == Some(v1) && AlphabetValue(c2) == Some(v2)
    requires v0 as int * 4 + v1 as int / 16 == b0 && (v1 as int % 16) * 16 + v2 as int / 4 == b1
    ensures Base64Decode([c0, c1, c2, '=']) == Some([b0, b1])
  {
    assert c2 != '=';
  }

  lemma OneByte(b: Byte)
    ensures (b / 4) * 4 + ((b % 4) * 16) / 16 == b
  {
    var r := b % 4;
    assert (r * 16) / 16 == r;
  }

  lemma RoundTripTwo(bs: seq<Byte>)
    requires |bs| == 2
    ensures Base64Decode(Base64Encode(bs)) == Some(bs)
  {
    var b0, b1 := bs[0], bs[1];
    var s0, s1, s2 := TwoBytes(b0, b1);
    AlphabetValueOfChar(s0);
    AlphabetValueOfChar(s1);
    AlphabetValueOfChar(s2);
    assert Base64Encode(bs) == [AlphabetChar(s0), AlphabetChar(s1), AlphabetChar(s2), '='];
    DecodeOnePad(AlphabetChar(s0), AlphabetChar(s1), AlphabetChar(s2), s0, s1, s2, b0, b1);
    assert [b0, b1] == bs;
  }

  /** The three sextets of two bytes, and how they give the bytes back. */
  lemma TwoBytes(b0: Byte, b1: Byte) returns (s0: Sextet, s1: Sextet, s2: Sextet)
    ensures s0 == b0 / 4 && s1 == (b0 % 4) * 16 + b1 / 16 && s2 == (b1 % 16) * 4
    ensures s0 as int * 4 + s1 as int / 16 == b0 && (s1 as int % 16) * 16 + s2 as int / 4 == b1
  {
    RegroupBytes(b0, b1, 0);
    s0, s1, s2 := b0 / 4, (b0 % 4) * 16 + b1 / 16, (b1 % 16) * 4;
  }

  /** A group of four characters without padding decodes on its own and
      the rest is decoded after it. */
  lemma DecodeUnpadded(s: string, g: seq<Byte>, rest: seq<Byte>)
    requires |s| >= 4 && s[3] != '='
    requires DecodeGroup(s[0], s[1], s[2], s[3]) == Some(g)
    requires Base64Decode(s[4..]) == Some(rest)
    ensures Base64Decode(s) == Some(g + rest)
  {
  }

  lemma EncodeGroupFirst(bs: seq<Byte>)
    requires |bs| >= 3
    ensures Base64Encode(bs) == EncodeGroup(bs[0], bs[1], bs[2]) + Base64Encode(bs[3..])
  {
  }

  lemma RoundTripGroup(bs: seq<Byte>, t: string)
    requires |bs| >= 3 && Base64Decode(t) == Some(bs[3..])
    ensures Base64Decode(EncodeGroup(bs[0], bs[1], bs[2]) + t) == Some(bs)
  {
    var s := EncodeGroup(bs[0], bs[1], bs[2]) + t;
    assert s[3] != '=' && s[4..] == t;
    assert DecodeGroup(s[0], s[1], s[2], s[3]) == Some([bs[0], bs[1], bs[2]]) by {
      DecodeEncodeGroup(bs[0], bs[1], bs[2]);
    }
    DecodeUnpadded(s, [bs[0], bs[1], bs[2]], bs[3..]);
    assert [bs[0], bs[1], bs[2]] + bs[3..] == bs;
  }

  /** Decoding the base64 text gives the bytes back. */
  lemma {:induction false} Base64RoundTrip(bs: seq<Byte>)
    ensures Base64Decode(Base64Encode(bs)) == Some(bs)
    decreases |bs|
  {
    if |bs| == 1 {
      RoundTripOne(bs);
    } else if |bs| == 2 {
      RoundTripTwo(bs);
    } else if |bs| >= 3 {
      Base64RoundTrip(bs[3..]);
      RoundTripGroup(bs, Base64Encode(bs[3..]));
      EncodeGroupFirst(bs);
    }
  }
}
