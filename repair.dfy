/**
 * `fixEncoding` in src/App.tsx: `decodeURIComponent(escape(str))`, with the input
 * returned unchanged when that throws. `escape` writes each code unit up to 0xFF as one
 * byte (itself for `A-Z a-z 0-9 @*_+-./`, `%XX` otherwise) and any larger one as
 * `%uXXXX`, which `decodeURIComponent` rejects; the
 * bytes are then decoded as UTF-8, which throws when they are not well-formed. The
 * composition is modelled as that byte reading followed by `Utf8.Decode`.
 */
module Repair {
  import opened Wrappers
  import opened Utf8
  import Seqs

  function ByteChar(b: byte): char
  {
    b as int as char
  }

  /**
   * Bytes read one per character (ISO-8859-1): how UTF-8 text becomes the garbled text
   * `fixEncoding` is meant to repair.
   */
  function Latin1Decode(b: seq<byte>): (s: string)
    ensures |s| == |b|
    ensures forall i :: 0 <= i < |s| ==> s[i] as int == b[i] as int
  {
    Seqs.Map(ByteChar, b)
  }

  predicate IsLatin1(s: string)
  {
    forall i :: 0 <= i < |s| ==> s[i] as int < 0x100
  }

  /**
   * The bytes `escape` hands on: one per character when every character is at most
   * U+00FF, otherwise None (a `%uXXXX` escape, on which `decodeURIComponent` throws).
   */
  function Latin1Bytes(s: string): (r: Option<seq<byte>>)
    ensures r.Some? <==> IsLatin1(s)
    ensures r.Some? ==> Latin1Decode(r.value) == s
  {
    if IsLatin1(s) then Some(seq(|s|, i requires 0 <= i < |s| => s[i] as int as byte)) else None
  }

  lemma Latin1BytesOfDecode(b: seq<byte>)
    ensures Latin1Bytes(Latin1Decode(b)) == Some(b)
  {
    var s := Latin1Decode(b);
    assert IsLatin1(s);
    var r := seq(|s|, i requires 0 <= i < |s| => s[i] as int as byte);
    assert Latin1Bytes(s) == Some(r);
    assert |r| == |b|;
    forall i | 0 <= i < |b| ensures r[i] == b[i] {
      assert s[i] as int == b[i] as int;
    }
    assert r == b;
  }

  /**
   * `fixEncoding(str)`: empty for an absent or empty input; otherwise either the input
   * unchanged, or the text whose UTF-8 bytes, read one per character, are the input.
   */
  function FixEncoding(s: Option<string>): (r: string)
    ensures s.None? || s.value == [] ==> r == []
    ensures s.Some? && s.value != [] ==> r != [] && (r == s.value || Latin1Decode(Encode(r)) == s.value)
  {
    if s.None? || s.value == [] then ""
    else
      match Latin1Bytes(s.value)
      case None => s.value
      case Some(b) =>
        match Decode(b)
        case None => s.value
        case Some(d) =>
          DecodeIsInverse(b, d);
          d
  }

  /** Repair undoes the garbling: UTF-8 text read one byte per character comes back intact. */
  lemma FixEncodingRepairs(d: string)
    requires d != []
    ensures FixEncoding(Some(Latin1Decode(Encode(d)))) == d
  {
    Latin1BytesOfDecode(Encode(d));
    DecodeEncode(d);
  }

  /**
   * A string holding a character above U+00FF is returned unchanged (`escape` emits
   * `%uXXXX` and `decodeURIComponent` throws).
   */
  lemma FixEncodingKeepsWide(s: string, i: int)
    requires 0 <= i < |s| && s[i] as int > 0xFF
    ensures FixEncoding(Some(s)) == s
  {
  }

  /** A string whose bytes are not well-formed UTF-8 is returned unchanged. */
  lemma FixEncodingKeepsMalformed(s: string)
    requires forall d :: Latin1Decode(Encode(d)) != s
    ensures FixEncoding(Some(s)) == s
  {
  }

  /** Pure-ASCII text is a fixed point of the repair. */
  lemma FixEncodingKeepsAscii(s: string)
    requires IsAscii(s)
    ensures FixEncoding(Some(s)) == s
  {
    if s != [] {
      EncodeAscii(s);
      assert Latin1Decode(Encode(s)) == s;
      FixEncodingRepairs(s);
    }
  }

  /** The example of the source's comment: "CatolÃ©" becomes "Catolé". */
  lemma FixEncodingExample()
    ensures FixEncoding(Some("CatolÃ©")) == "Catolé"
  {
    var d := "Catolé";
    assert Encode(d) == [0x43, 0x61, 0x74, 0x6F, 0x6C, 0xC3, 0xA9] by {
      assert d == "Catol" + "é";
      Seqs.FlatMapAppend(EncodeChar, "Catol", "é");
      EncodeAscii("Catol");
    }
    assert Latin1Decode(Encode(d)) == "CatolÃ©";
    FixEncodingRepairs(d);
  }
}
