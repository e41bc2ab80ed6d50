/**
 * The URL- and filename-safe base 64 alphabet of section 5 of RFC 4648, with
 * '=' padding, as base64.urlsafe_b64encode writes it: the key file holds the
 * key in this form, and every reader decodes it before building the cipher.
 */
module Base64Url {
  import opened Wrappers

  type Byte = x: int | 0 <= x < 256

  /** A 6-bit value, the index of one symbol of the alphabet. */
  type Sextet = x: int | 0 <= x < 64

  /** Table 2 of RFC 4648 with '-' for 62 and '_' for 63 (section 5). */
  function Symbol(v: Sextet): (c: char) {
    if v < 26 then ('A' as int + v) as char
    else if v < 52 then ('a' as int + (v - 26)) as char
    else if v < 62 then ('0' as int + (v - 52)) as char
    else if v == 62 then '-'
    else '_'
  }

  /** The value of an alphabet symbol; None for any other character, the padding included. */
  function SymbolValue(c: char): (r: Option<Sextet>)
    ensures r.Some? ==> Symbol(r.value) == c
  {
    if 'A' <= c <= 'Z' then Some(c as int - 'A' as int)
    else if 'a' <= c <= 'z' then Some(c as int - 'a' as int + 26)
    else if '0' <= c <= '9' then Some(c as int - '0' as int + 52)
    else if c == '-' then Some(62)
    else if c == '_' then Some(63)
    else None
  }

  lemma SymbolValueOfSymbol(v: Sextet)
    ensures SymbolValue(Symbol(v)) == Some(v)
  {
  }

  /** Three bytes as four symbols (section 4 of RFC 4648: 24 bits, most significant first). */
  function EncodeGroup(b0: Byte, b1: Byte, b2: Byte): (s: string)
    ensures |s| == 4
  {
    [Symbol(b0 / 4), Symbol((b0 % 4) * 16 + b1 / 16), Symbol((b1 % 16) * 4 + b2 / 64), Symbol(b2 % 64)]
  }

  function Encode(bytes: seq<Byte>): (s: string)
    ensures |s| % 4 == 0
  {
    if |bytes| == 0 then ""
    else if |bytes| == 1 then EncodeGroup(bytes[0], 0, 0)[..2] + "=="
    else if |bytes| == 2 then EncodeGroup(bytes[0], bytes[1], 0)[..3] + "="
    else EncodeGroup(bytes[0], bytes[1], bytes[2]) + Encode(bytes[3..])
  }

  /** Four symbols back to the three bytes they carry. */
  function DecodeGroup(c0: Sextet, c1: Sextet, c2: Sextet, c3: Sextet): seq<Byte> {
    [c0 * 4 + c1 / 16, (c1 % 16) * 16 + c2 / 4, (c2 % 4) * 64 + c3]
  }

  /**
   * Decoding of padded text in groups of four: a length that is not a multiple of
   * four, a character outside the alphabet, or padding anywhere but at the end
   * of the last group is refused.
   */
  function Decode(s: string): (r: Option<seq<Byte>>)
    decreases |s|
  {
    if |s| == 0 then Some([])
    else if |s| < 4 then None
    else
      match (SymbolValue(s[0]), SymbolValue(s[1]), SymbolValue(s[2]), SymbolValue(s[3]))
      case (Some(c0), Some(c1), Some(c2), Some(c3)) =>
        (match Decode(s[4..])
         case None => None
         case Some(rest) => Some(DecodeGroup(c0, c1, c2, c3) + rest))
      case (Some(c0), Some(c1), Some(c2), None) =>
        if |s| == 4 && s[3] == '=' then Some(DecodeGroup(c0, c1, c2, 0)[..2]) else None
      case (Some(c0), Some(c1), None, None) =>
        if |s| == 4 && s[2] == '=' && s[3] == '=' then Some(DecodeGroup(c0, c1, 0, 0)[..1]) else None
      case _ => None
  }

  lemma GroupRoundTrip(b0: Byte, b1: Byte, b2: Byte)
    ensures DecodeGroup(b0 / 4, (b0 % 4) * 16 + b1 / 16, (b1 % 16) * 4 + b2 / 64, b2 % 64) == [b0, b1, b2]
  {
    var c1 := (b0 % 4) * 16 + b1 / 16;
    var c2 := (b1 % 16) * 4 + b2 / 64;
    assert c1 / 16 == b0 % 4 && c1 % 16 == b1 / 16;
    assert c2 / 4 == b1 % 16 && c2 % 4 == b2 / 64;
  }

  lemma DecodeFullGroup(s: string, c0: Sextet, c1: Sextet, c2: Sextet, c3: Sextet, rest: seq<Byte>)
    requires |s| >= 4
    requires SymbolValue(s[0]) == Some(c0) && SymbolValue(s[1]) == Some(c1)
    requires SymbolValue(s[2]) == Some(c2) && SymbolValue(s[3]) == Some(c3)
    requires Decode(s[4..]) == Some(rest)
    ensures Decode(s) == Some(DecodeGroup(c0, c1, c2, c3) + rest)
  {
  }

  lemma EncodeOneByte(b0: Byte)
    ensures Decode(Encode([b0])) == Some([b0])
  {
    var c0, c1 := b0 / 4, (b0 % 4) * 16;
    GroupRoundTrip(b0, 0, 0);
    SymbolValueOfSymbol(c0);
    SymbolValueOfSymbol(c1);
    var s := Encode([b0]);
    assert s == [Symbol(c0), Symbol(c1), '=', '='];
    assert SymbolValue(s[2]) == None && SymbolValue(s[3]) == None;
    assert DecodeGroup(c0, c1, 0, 0) == [b0, 0, 0];
    assert Decode(s) == Some(DecodeGroup(c0, c1, 0, 0)[..1]);
    assert DecodeGroup(c0, c1, 0, 0)[..1] == [b0];
  }

  lemma EncodeTwoBytes(b0: Byte, b1: Byte)
    ensures Decode(Encode([b0, b1])) == Some([b0, b1])
  {
    var c0, c1, c2 := b0 / 4, (b0 % 4) * 16 + b1 / 16, (b1 % 16) * 4;
    GroupRoundTrip(b0, b1, 0);
    SymbolValueOfSymbol(c0);
    SymbolValueOfSymbol(c1);
    SymbolValueOfSymbol(c2);
    var s := Encode([b0, b1]);
    assert s == [Symbol(c0), Symbol(c1), Symbol(c2), '='];
    assert SymbolValue(s[3]) == None;
    assert DecodeGroup(c0, c1, c2, 0) == [b0, b1, 0];
    assert Decode(s) == Some(DecodeGroup(c0, c1, c2, 0)[..2]);
    assert DecodeGroup(c0, c1, c2, 0)[..2] == [b0, b1];
  }

  lemma GroupThenRest(b0: Byte, b1: Byte, b2: Byte, rest: string, tail: seq<Byte>)
    requires Decode(rest) == Some(tail)
    ensures Decode(EncodeGroup(b0, b1, b2) + rest) == Some([b0, b1, b2] + tail)
  {
    var c0, c1, c2, c3 := b0 / 4, (b0 % 4) * 16 + b1 / 16, (b1 % 16) * 4 + b2 / 64, b2 % 64;
    GroupRoundTrip(b0, b1, b2);
    SymbolValueOfSymbol(c0);
    SymbolValueOfSymbol(c1);
    SymbolValueOfSymbol(c2);
    SymbolValueOfSymbol(c3);
    var s := EncodeGroup(b0, b1, b2) + rest;
    assert s[4..] == rest;
    DecodeFullGroup(s, c0, c1, c2, c3, tail);
  }

  lemma SplitThree<T>(s: seq<T>)
    requires |s| > 2
    ensures [s[0], s[1], s[2]] + s[3..] == s
  {
  }

  lemma EncodeLeadingGroup(bytes: seq<Byte>)
    requires |bytes| > 2 && Decode(Encode(bytes[3..])) == Some(bytes[3..])
    ensures Decode(Encode(bytes)) == Some(bytes)
  {
    var tail := bytes[3..];
    SplitThree(bytes);
    var head, rest := EncodeGroup(bytes[0], bytes[1], bytes[2]), Encode(tail);
    assert Encode(bytes) == head + rest;
    GroupThenRest(bytes[0], bytes[1], bytes[2], rest, tail);
  }

  /** Decoding what was encoded gives back the same bytes: the cipher is built from exactly the generated key. */
  lemma {:induction false} DecodeEncode(bytes: seq<Byte>)
    ensures Decode(Encode(bytes)) == Some(bytes)
    decreases |bytes|
  {
    if |bytes| == 1 {
      EncodeOneByte(bytes[0]);
      assert bytes == [bytes[0]];
    } else if |bytes| == 2 {
      EncodeTwoBytes(bytes[0], bytes[1]);
      assert bytes == [bytes[0], bytes[1]];
    } else if |bytes| > 2 {
      DecodeEncode(bytes[3..]);
      EncodeLeadingGroup(bytes);
    }
  }

  /** Decoding accepts only whole groups of four symbols, each giving three bytes, or fewer for the padded last one. */
  lemma {:induction false} DecodeLength(s: string)
    ensures Decode(s).Some? ==> |s| % 4 == 0
    ensures Decode(s).Some? ==> |s| - |s| / 4 - 2 <= |Decode(s).value| <= |s| - |s| / 4
    ensures Decode(s).Some? && |s| == 0 ==> Decode(s).value == []
    decreases |s|
  {
    if |s| >= 4 && Decode(s).Some? {
      match (SymbolValue(s[0]), SymbolValue(s[1]), SymbolValue(s[2]), SymbolValue(s[3]))
      case (Some(c0), Some(c1), Some(c2), Some(c3)) =>
        DecodeLength(s[4..]);
      case _ =>
    }
  }
}
