/** Percent-encoding of the proof key query value: `urlencode`. */
module UrlEncoding {
  import opened Text
  import opened Slugs

  type Byte = b: int | 0 <= b < 256

  function HexDigit(d: nat): char
    requires d < 16
  {
    if d < 10 then DigitChar(d) else ('A' as int + d - 10) as char
  }

  /** The unreserved characters of section 2.3 of RFC 3986. */
  predicate Unreserved(c: char) {
    IsAlnum(c) || c == '-' || c == '_' || c == '.' || c == '~'
  }

  predicate SafeByte(b: Byte) {
    b < 0x80 && Unreserved(b as char)
  }

  function EncodeByte(b: Byte): string {
    if SafeByte(b) then [b as char] else ['%', HexDigit(b / 16), HexDigit(b % 16)]
  }

  function Encoded(bytes: seq<Byte>): string {
    if bytes == [] then "" else EncodeByte(bytes[0]) + Encoded(bytes[1..])
  }

  lemma {:induction false} EncodedSnoc(bytes: seq<Byte>, b: Byte)
    ensures Encoded(bytes + [b]) == Encoded(bytes) + EncodeByte(b)
  {
    if bytes == [] {
      assert [b][1..] == [];
    } else {
      assert (bytes + [b])[1..] == bytes[1..] + [b];
      EncodedSnoc(bytes[1..], b);
    }
  }

  method UrlEncode(bytes: seq<Byte>) returns (out: string)
    ensures out == Encoded(bytes)
  {
    out := "";
    for i := 0 to |bytes|
      invariant out == Encoded(bytes[..i])
    {
      assert bytes[..i + 1] == bytes[..i] + [bytes[i]];
      EncodedSnoc(bytes[..i], bytes[i]);
      var c := bytes[i];
      if SafeByte(c) {
        out := out + [c as char];
      } else {
        out := out + "%";
        out := out + [HexDigit(c / 16), HexDigit(c % 16)];
      }
    }
    assert bytes[..|bytes|] == bytes;
  }

  // ---------- decoding ----------

  function HexValue(c: char): Option<nat> {
    if IsDigit(c) then Some(DigitValue(c))
    else if 'A' <= c <= 'F' then Some(c as int - 'A' as int + 10)
    else if 'a' <= c <= 'f' then Some(c as int - 'a' as int + 10)
    else None
  }

  /** Decoding as in section 2.1 of RFC 3986; a bad triple or a non-ASCII character is an error. */
  function Decoded(s: string): Option<seq<Byte>> {
    if s == "" then Some([])
    else if s[0] == '%' then
      if |s| < 3 then None
      else
        match (HexValue(s[1]), HexValue(s[2]), Decoded(s[3..]))
        case (Some(h), Some(l), Some(rest)) => if h < 16 && l < 16 then Some([16 * h + l] + rest) else None
        case _ => None
    else if s[0] as int >= 0x80 then None
    else
      match Decoded(s[1..])
      case Some(rest) => Some([s[0] as int] + rest)
      case None => None
  }

  /** Sixteen digits, upper or lower case. */
  lemma HexValueExactly(c: char, d: nat)
    ensures HexValue(c) == Some(d)
            <==> d < 16 && (c == "0123456789ABCDEF"[d] || c == "0123456789abcdef"[d])
  {
  }

  lemma HexRoundTrip(d: nat)
    requires d < 16
    ensures HexValue(HexDigit(d)) == Some(d)
  {
  }

  /** Decoding undoes encoding on every byte string. */
  lemma {:induction false} DecodeEncode(bytes: seq<Byte>)
    ensures Decoded(Encoded(bytes)) == Some(bytes)
  {
    if bytes != [] {
      var b, rest := bytes[0], bytes[1..];
      DecodeEncode(rest);
      var s := Encoded(bytes);
      if SafeByte(b) {
        assert s == [b as char] + Encoded(rest) && s[1..] == Encoded(rest);
      } else {
        HexRoundTrip(b / 16);
        HexRoundTrip(b % 16);
        assert s == ['%', HexDigit(b / 16), HexDigit(b % 16)] + Encoded(rest) && s[3..] == Encoded(rest);
        assert 16 * (b / 16) + b % 16 == b;
      }
      assert bytes == [b] + rest;
    }
  }

  /** Different byte strings have different encodings. */
  lemma EncodingInjective(a: seq<Byte>, b: seq<Byte>)
    requires Encoded(a) == Encoded(b)
    ensures a == b
  {
    DecodeEncode(a);
    DecodeEncode(b);
  }

  predicate UpperHex(c: char) {
    IsDigit(c) || 'A' <= c <= 'F'
  }

  /** Nothing but unreserved characters and whole upper-case triples. */
  predicate WellEncoded(s: string) {
    s == ""
    || (Unreserved(s[0]) && WellEncoded(s[1..]))
    || (|s| >= 3 && s[0] == '%' && UpperHex(s[1]) && UpperHex(s[2]) && WellEncoded(s[3..]))
  }

  lemma {:induction false} EncodedWell(bytes: seq<Byte>)
    ensures WellEncoded(Encoded(bytes))
  {
    if bytes != [] {
      EncodedWell(bytes[1..]);
      var s := Encoded(bytes);
      if SafeByte(bytes[0]) {
        assert s[1..] == Encoded(bytes[1..]);
      } else {
        assert s[3..] == Encoded(bytes[1..]);
      }
    }
  }

  /** Letters, digits and `-`, `_`, `.`, `~`. */
  predicate Plain(b: Byte) {
    'a' as int <= b <= 'z' as int || 'A' as int <= b <= 'Z' as int || '0' as int <= b <= '9' as int
    || b == '-' as int || b == '_' as int || b == '.' as int || b == '~' as int
  }

  lemma EncodedByte(b: Byte)
    ensures if Plain(b) then EncodeByte(b) == [b as char] else |EncodeByte(b)| == 3 && EncodeByte(b)[0] == '%'
  {
    assert Plain(b) <==> SafeByte(b);
  }

  /** Plain bytes stay as they are, every other byte becomes a triple, and each byte is encoded by itself. */
  lemma {:induction false} EncodedByteByByte(bytes: seq<Byte>, i: nat)
    requires i < |bytes|
    ensures Encoded(bytes) == Encoded(bytes[..i]) + EncodeByte(bytes[i]) + Encoded(bytes[i + 1..])
    ensures if Plain(bytes[i]) then EncodeByte(bytes[i]) == [bytes[i] as char]
            else |EncodeByte(bytes[i])| == 3 && EncodeByte(bytes[i])[0] == '%'
  {
    EncodedByte(bytes[i]);
    EncodedAppend(bytes[..i], bytes[i..]);
    assert bytes[..i] + bytes[i..] == bytes;
    assert bytes[i..][1..] == bytes[i + 1..];
    Associative(Encoded(bytes[..i]), EncodeByte(bytes[i]), Encoded(bytes[i + 1..]));
  }

  lemma {:induction false} EncodedAppend(a: seq<Byte>, b: seq<Byte>)
    ensures Encoded(a + b) == Encoded(a) + Encoded(b)
  {
    if a == [] {
      assert a + b == b;
    } else {
      EncodedAppend(a[1..], b);
      assert (a + b)[1..] == a[1..] + b;
      Associative(EncodeByte(a[0]), Encoded(a[1..]), Encoded(b));
    }
  }
}
