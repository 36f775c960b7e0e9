/**
 * UTF-8 as RFC 3629 defines it (RFC 3629 section 3, the encoding, and RFC 3629 section 4,
 * the syntax of well-formed byte sequences): the decoding `decodeURIComponent` performs on the
 * percent-escaped bytes, and the encoding it inverts.
 */
module Utf8 {
  import opened Wrappers
  import Seqs

  newtype byte = x: int | 0 <= x < 0x100

  /** `UTF8-tail = %x80-BF` */
  predicate IsTail(b: byte)
  {
    0x80 <= b <= 0xBF
  }

  /** The lowest second byte RFC 3629 section 4 allows after lead byte `b0` (E0 and F0 exclude overlong forms). */
  function SecondLow(b0: byte): byte
  {
    if b0 == 0xE0 then 0xA0 else if b0 == 0xF0 then 0x90 else 0x80
  }

  /** The highest second byte RFC 3629 section 4 allows after `b0` (ED excludes surrogates, F4 code points above U+10FFFF). */
  function SecondHigh(b0: byte): byte
  {
    if b0 == 0xED then 0x9F else if b0 == 0xF4 then 0x8F else 0xBF
  }

  /** RFC 3629 section 3: one character as one to four bytes, by code point range. */
  function EncodeChar(c: char): seq<byte>
  {
    var n := c as int;
    if n < 0x80 then [n as byte]
    else if n < 0x800 then [(0xC0 + n / 0x40) as byte, (0x80 + n % 0x40) as byte]
    else if n < 0x10000 then
      [(0xE0 + n / 0x1000) as byte, (0x80 + n / 0x40 % 0x40) as byte, (0x80 + n % 0x40) as byte]
    else
      [(0xF0 + n / 0x40000) as byte, (0x80 + n / 0x1000 % 0x40) as byte,
       (0x80 + n / 0x40 % 0x40) as byte, (0x80 + n % 0x40) as byte]
  }

  function Encode(s: string): seq<byte>
  {
    Seqs.FlatMap(EncodeChar, s)
  }

  /**
   * RFC 3629 section 4: the character whose well-formed encoding starts `b`, with its length in
   * bytes; None when `b` does not start with a well-formed sequence (a stray
   * continuation byte, a truncated sequence, an overlong form, a surrogate, a code
   * point above U+10FFFF, or a byte that never occurs in UTF-8).
   */
  function DecodeFirst(b: seq<byte>): (r: Option<(char, nat)>)
    ensures r.Some? ==> 1 <= r.value.1 <= |b|
    ensures |b| > 0 && b[0] < 0x80 ==> r == Some((b[0] as char, 1))
    ensures |b| == 0 || IsTail(b[0]) || b[0] == 0xC0 || b[0] == 0xC1 || b[0] > 0xF4 ==> r.None?
  {
    if |b| == 0 then None
    else
      var b0 := b[0] as int;
      if b0 < 0x80 then Some((b0 as char, 1))
      else if 0xC2 <= b0 <= 0xDF then
        if |b| >= 2 && IsTail(b[1]) then
          Some((((b0 - 0xC0) * 0x40 + (b[1] as int - 0x80)) as char, 2))
        else None
      else if 0xE0 <= b0 <= 0xEF then
        if |b| >= 3 && SecondLow(b[0]) <= b[1] <= SecondHigh(b[0]) && IsTail(b[2]) then
          Some((((b0 - 0xE0) * 0x1000 + (b[1] as int - 0x80) * 0x40 + (b[2] as int - 0x80)) as char, 3))
        else None
      else if 0xF0 <= b0 <= 0xF4 then
        if |b| >= 4 && SecondLow(b[0]) <= b[1] <= SecondHigh(b[0]) && IsTail(b[2]) && IsTail(b[3]) then
          Some((((b0 - 0xF0) * 0x40000 + (b[1] as int - 0x80) * 0x1000
                + (b[2] as int - 0x80) * 0x40 + (b[3] as int - 0x80)) as char, 4))
        else None
      else None
  }

  /** The text `b` encodes, or None when `b` is not well-formed UTF-8 (where the decoder throws). */
  function Decode(b: seq<byte>): (r: Option<string>)
    ensures b == [] ==> r == Some([])
    ensures b != [] && DecodeFirst(b).None? ==> r.None?
    ensures r.Some? ==> |r.value| <= |b|
    decreases |b|
  {
    if b == [] then Some([])
    else
      match DecodeFirst(b)
      case None => None
      case Some((c, k)) =>
        match Decode(b[k..])
        case None => None
        case Some(rest) => Some([c] + rest)
  }

  /** Base-64 digits: `x == q * 64 + r` with `r` a digit determines quotient and remainder. */
  lemma Digits64(x: int, q: int, r: int)
    requires x == q * 0x40 + r && 0 <= r < 0x40
    ensures x / 0x40 == q && x % 0x40 == r
  {
  }

  lemma DecodeFirstEncodeChar2(n: int, rest: seq<byte>)
    requires 0x80 <= n < 0x800
    ensures DecodeFirst(EncodeChar(n as char) + rest) == Some((n as char, 2))
  {
    var b := EncodeChar(n as char) + rest;
    var q, r := n / 0x40, n % 0x40;
    assert b[0] as int == 0xC0 + q && b[1] as int == 0x80 + r;
    assert (b[0] as int - 0xC0) * 0x40 + (b[1] as int - 0x80) == n;
  }

  lemma DecodeFirstEncodeChar3(n: int, rest: seq<byte>)
    requires 0x800 <= n < 0x10000 && !(0xD800 <= n < 0xE000)
    ensures DecodeFirst(EncodeChar(n as char) + rest) == Some((n as char, 3))
  {
    var b := EncodeChar(n as char) + rest;
    var q, r := n / 0x40, n % 0x40;
    var q2, r1 := q / 0x40, q % 0x40;
    assert n / 0x1000 == q2;
    assert b[0] as int == 0xE0 + q2 && b[1] as int == 0x80 + r1 && b[2] as int == 0x80 + r;
    assert n == q2 * 0x1000 + r1 * 0x40 + r;
  }

  lemma DecodeFirstEncodeChar4(n: int, rest: seq<byte>)
    requires 0x10000 <= n < 0x110000
    ensures DecodeFirst(EncodeChar(n as char) + rest) == Some((n as char, 4))
  {
    var b := EncodeChar(n as char) + rest;
    var q, r := n / 0x40, n % 0x40;
    var q2, r1 := q / 0x40, q % 0x40;
    var q3, r2 := q2 / 0x40, q2 % 0x40;
    assert n / 0x1000 == q2;
    assert n / 0x40000 == q3;
    assert b[0] as int == 0xF0 + q3 && b[1] as int == 0x80 + r2;
    assert b[2] as int == 0x80 + r1 && b[3] as int == 0x80 + r;
    assert n == q3 * 0x40000 + r2 * 0x1000 + r1 * 0x40 + r;
  }

  /** Decoding reads back the character that was encoded, and consumes exactly its bytes. */
  lemma DecodeFirstEncodeChar(c: char, rest: seq<byte>)
    ensures DecodeFirst(EncodeChar(c) + rest) == Some((c, |EncodeChar(c)|))
  {
    var n := c as int;
    assert c == n as char;
    if n < 0x80 {
    } else if n < 0x800 {
      DecodeFirstEncodeChar2(n, rest);
    } else if n < 0x10000 {
      DecodeFirstEncodeChar3(n, rest);
    } else {
      DecodeFirstEncodeChar4(n, rest);
    }
  }

  lemma EncodeCharDecodeFirst2(b: seq<byte>)
    requires |b| >= 2 && 0xC2 <= b[0] <= 0xDF && IsTail(b[1])
    ensures DecodeFirst(b).Some? && EncodeChar(DecodeFirst(b).value.0) == b[..2]
  {
    var q, r := b[0] as int - 0xC0, b[1] as int - 0x80;
    var n := q * 0x40 + r;
    Digits64(n, q, r);
    assert DecodeFirst(b).value.0 as int == n;
  }

  lemma EncodeCharDecodeFirst3(b: seq<byte>)
    requires |b| >= 3 && 0xE0 <= b[0] <= 0xEF && SecondLow(b[0]) <= b[1] <= SecondHigh(b[0]) && IsTail(b[2])
    ensures DecodeFirst(b).Some? && EncodeChar(DecodeFirst(b).value.0) == b[..3]
  {
    var q2, r1, r := b[0] as int - 0xE0, b[1] as int - 0x80, b[2] as int - 0x80;
    var q := q2 * 0x40 + r1;
    var n := q * 0x40 + r;
    Digits64(n, q, r);
    Digits64(q, q2, r1);
    assert n / 0x1000 == q2;
    assert DecodeFirst(b).value.0 as int == n;
  }

  lemma EncodeCharDecodeFirst4(b: seq<byte>)
    requires |b| >= 4 && 0xF0 <= b[0] <= 0xF4 && SecondLow(b[0]) <= b[1] <= SecondHigh(b[0])
    requires IsTail(b[2]) && IsTail(b[3])
    ensures DecodeFirst(b).Some? && EncodeChar(DecodeFirst(b).value.0) == b[..4]
  {
    var q3, r2, r1, r := b[0] as int - 0xF0, b[1] as int - 0x80, b[2] as int - 0x80, b[3] as int - 0x80;
    var q2 := q3 * 0x40 + r2;
    var q := q2 * 0x40 + r1;
    var n := q * 0x40 + r;
    Digits64(n, q, r);
    Digits64(q, q2, r1);
    Digits64(q2, q3, r2);
    assert n / 0x1000 == q2;
    assert n / 0x40000 == q3;
    assert DecodeFirst(b).value.0 as int == n;
  }

  /** A well-formed sequence that decodes to `c` is exactly the encoding of `c`. */
  lemma EncodeCharDecodeFirst(b: seq<byte>)
    requires DecodeFirst(b).Some?
    ensures EncodeChar(DecodeFirst(b).value.0) == b[..DecodeFirst(b).value.1]
  {
    var b0 := b[0] as int;
    if b0 < 0x80 {
    } else if b0 <= 0xDF {
      EncodeCharDecodeFirst2(b);
    } else if b0 <= 0xEF {
      EncodeCharDecodeFirst3(b);
    } else {
      EncodeCharDecodeFirst4(b);
    }
  }

  /** `decode(encode(s)) == s` */
  lemma {:induction false} DecodeEncode(s: string)
    ensures Decode(Encode(s)) == Some(s)
  {
    if s != [] {
      var e := EncodeChar(s[0]);
      assert Encode(s) == e + Encode(s[1..]);
      DecodeFirstEncodeChar(s[0], Encode(s[1..]));
      assert (e + Encode(s[1..]))[|e|..] == Encode(s[1..]);
      DecodeEncode(s[1..]);
      assert [s[0]] + s[1..] == s;
    }
  }

  /** Whatever decodes successfully is the encoding of what it decodes to. */
  lemma {:induction false} EncodeDecode(b: seq<byte>, s: string)
    requires Decode(b) == Some(s)
    ensures Encode(s) == b
    decreases |b|
  {
    if b != [] {
      var r := DecodeFirst(b);
      var c, k := r.value.0, r.value.1;
      EncodeCharDecodeFirst(b);
      EncodeDecode(b[k..], s[1..]);
      assert s == [c] + s[1..];
      assert Encode(s) == EncodeChar(c) + Encode(s[1..]);
      assert b == b[..k] + b[k..];
    }
  }

  /** Decoding is exactly the inverse of encoding: `decode(b) == s` iff `encode(s) == b`. */
  lemma DecodeIsInverse(b: seq<byte>, s: string)
    ensures Decode(b) == Some(s) <==> Encode(s) == b
  {
    if Decode(b) == Some(s) {
      EncodeDecode(b, s);
    }
    if Encode(s) == b {
      DecodeEncode(s);
    }
  }

  /** Every character of `s` is below U+0080. */
  predicate IsAscii(s: string)
  {
    forall i :: 0 <= i < |s| ==> s[i] as int < 0x80
  }

  /** Below U+0080 a character is its own single byte. */
  lemma {:induction false} EncodeAscii(s: string)
    requires IsAscii(s)
    ensures |Encode(s)| == |s|
    ensures forall i :: 0 <= i < |s| ==> Encode(s)[i] as int == s[i] as int
  {
    if s != [] {
      EncodeAscii(s[1..]);
      assert Encode(s) == [s[0] as int as byte] + Encode(s[1..]);
    }
  }
}
