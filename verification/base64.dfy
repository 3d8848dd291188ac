/**
 * The browser's `btoa` and `atob`, which the session token goes through.
 * `btoa` encodes a string of Latin-1 characters with the Base64 alphabet
 * of section 4 of RFC 4648, padding with `=`, and throws on any character
 * above U+00FF. `atob` follows the "forgiving-base64 decode" of the WHATWG
 * Infra standard: ASCII whitespace is removed, one or two trailing `=` are
 * dropped when the length is a multiple of 4, a length of 4k+1 or a
 * character outside the alphabet fails, and leftover bits are discarded.
 */
module Base64 {
  import opened JsValues

  type Byte = x: int | 0 <= x < 256
  type Sextet = x: int | 0 <= x < 64

  // ---------------------------------------------------------------------------
  // The alphabet
  // ---------------------------------------------------------------------------

  /** The alphabet of section 4 of RFC 4648: A-Z, a-z, 0-9, '+', '/'. */
  function EncodeChar(v: Sextet): char
  {
    if v < 26 then ('A' as int + v) as char
    else if v < 52 then ('a' as int + (v - 26)) as char
    else if v < 62 then ('0' as int + (v - 52)) as char
    else if v == 62 then '+'
    else '/'
  }

  predicate IsBase64Char(c: char)
  {
    ('A' <= c <= 'Z') || ('a' <= c <= 'z') || ('0' <= c <= '9') || c == '+' || c == '/'
  }

  function CharValue(c: char): Sextet
    requires IsBase64Char(c)
  {
    if 'A' <= c <= 'Z' then c as int - 'A' as int
    else if 'a' <= c <= 'z' then c as int - 'a' as int + 26
    else if '0' <= c <= '9' then c as int - '0' as int + 52
    else if c == '+' then 62
    else 63
  }

  /** The alphabet is a bijection between the 64 sextet values and the 64 characters. */
  lemma AlphabetBijection(v: Sextet, c: char)
    ensures IsBase64Char(EncodeChar(v)) && CharValue(EncodeChar(v)) == v
    ensures IsBase64Char(c) ==> EncodeChar(CharValue(c)) == c
  {
  }

  // ---------------------------------------------------------------------------
  // Encoding
  // ---------------------------------------------------------------------------

  /** Three bytes become four sextets; a final one or two bytes become two or three. */
  function EncodeSextets(b: seq<Byte>): (v: seq<Sextet>)
    ensures |v| % 4 == 0 <==> |b| % 3 == 0
    ensures |v| % 4 == 2 <==> |b| % 3 == 1
    ensures |v| % 4 == 3 <==> |b| % 3 == 2
    decreases |b|
  {
    if |b| == 0 then []
    else if |b| == 1 then [b[0] / 4, (b[0] % 4) * 16]
    else if |b| == 2 then [b[0] / 4, (b[0] % 4) * 16 + b[1] / 16, (b[1] % 16) * 4]
    else [b[0] / 4, (b[0] % 4) * 16 + b[1] / 16, (b[1] % 16) * 4 + b[2] / 64, b[2] % 64] + EncodeSextets(b[3..])
  }

  function Chars(v: seq<Sextet>): (s: string)
    ensures |s| == |v|
    ensures forall i :: 0 <= i < |s| ==> s[i] == EncodeChar(v[i]) && IsBase64Char(s[i])
  {
    seq(|v|, i requires 0 <= i < |v| => AlphabetBijection(v[i], ' '); EncodeChar(v[i]))
  }

  /** The `=` characters that fill the last group of four. */
  function Padding(n: nat): string
  {
    if n % 3 == 1 then "==" else if n % 3 == 2 then "=" else ""
  }

  /** Base64 of a byte string, padded. */
  function Encode(b: seq<Byte>): (s: string)
    ensures |s| % 4 == 0
    ensures forall i :: 0 <= i < |s| ==> IsBase64Char(s[i]) || s[i] == '='
  {
    Chars(EncodeSextets(b)) + Padding(|b|)
  }

  // ---------------------------------------------------------------------------
  // Decoding
  // ---------------------------------------------------------------------------

  function FirstByte(a: Sextet, b: Sextet): Byte { (a as int) * 4 + (b as int) / 16 }
  function SecondByte(b: Sextet, c: Sextet): Byte { ((b as int) % 16) * 16 + (c as int) / 4 }
  function ThirdByte(c: Sextet, d: Sextet): Byte { ((c as int) % 4) * 64 + (d as int) }

  /** Four sextets become three bytes; a final two or three become one or two; spare bits are dropped. */
  function DecodeSextets(v: seq<Sextet>): seq<Byte>
    decreases |v|
  {
    if |v| < 2 then []
    else if |v| == 2 then [FirstByte(v[0], v[1])]
    else if |v| == 3 then [FirstByte(v[0], v[1]), SecondByte(v[1], v[2])]
    else [FirstByte(v[0], v[1]), SecondByte(v[1], v[2]), ThirdByte(v[2], v[3])] + DecodeSextets(v[4..])
  }

  /** The ASCII whitespace forgiving-base64 removes: tab, line feed, form feed, carriage return, space. */
  predicate IsAsciiWhitespace(c: char)
  {
    c == '\t' || c == '\n' || c == '\U{C}' || c == '\r' || c == ' '
  }

  function StripWhitespace(s: string): (r: string)
    ensures forall i :: 0 <= i < |r| ==> !IsAsciiWhitespace(r[i])
    decreases |s|
  {
    if s == [] then []
    else (if IsAsciiWhitespace(s[0]) then [] else [s[0]]) + StripWhitespace(s[1..])
  }

  /** When the length is a multiple of 4, one or two trailing `=` are removed. */
  function DropPadding(s: string): string
  {
    if |s| % 4 != 0 || |s| == 0 then s
    else if |s| >= 2 && s[|s| - 2..] == "==" then s[..|s| - 2]
    else if s[|s| - 1] == '=' then s[..|s| - 1]
    else s
  }

  predicate AllBase64(t: string)
  {
    forall i :: 0 <= i < |t| ==> IsBase64Char(t[i])
  }

  function Values(t: string): (v: seq<Sextet>)
    requires AllBase64(t)
    ensures |v| == |t|
  {
    seq(|t|, i requires 0 <= i < |t| => CharValue(t[i]))
  }

  /** Forgiving-base64 decode: `None` where `atob` throws. */
  function ForgivingDecode(s: string): Option<seq<Byte>>
  {
    var t := DropPadding(StripWhitespace(s));
    if |t| % 4 == 1 then None
    else if !AllBase64(t) then None
    else Some(DecodeSextets(Values(t)))
  }

  // ---------------------------------------------------------------------------
  // Round trip
  // ---------------------------------------------------------------------------

  /** Per group, the bits a byte is split into join back into that byte. */
  lemma GroupRoundTrip(x: Byte, y: Byte, z: Byte)
    ensures FirstByte(x / 4, (x % 4) * 16) == x
    ensures FirstByte(x / 4, (x % 4) * 16 + y / 16) == x
    ensures SecondByte((x % 4) * 16 + y / 16, (y % 16) * 4) == y
    ensures SecondByte((x % 4) * 16 + y / 16, (y % 16) * 4 + z / 64) == y
    ensures ThirdByte((y % 16) * 4 + z / 64, z % 64) == z
  {
  }

  lemma {:induction false} DecodeEncodeSextets(b: seq<Byte>)
    ensures DecodeSextets(EncodeSextets(b)) == b
    decreases |b|
  {
    if |b| == 1 {
      GroupRoundTrip(b[0], 0, 0);
    } else if |b| == 2 {
      GroupRoundTrip(b[0], b[1], 0);
    } else if |b| >= 3 {
      var v := EncodeSextets(b);
      var rest := EncodeSextets(b[3..]);
      assert v == [v[0], v[1], v[2], v[3]] + rest;
      assert v[4..] == rest;
      GroupRoundTrip(b[0], b[1], b[2]);
      DecodeEncodeSextets(b[3..]);
      assert DecodeSextets(v) == [b[0], b[1], b[2]] + DecodeSextets(rest);
      assert b == [b[0], b[1], b[2]] + b[3..];
    }
  }

  lemma StripNoWhitespace(s: string)
    requires forall i :: 0 <= i < |s| ==> !IsAsciiWhitespace(s[i])
    ensures StripWhitespace(s) == s
    decreases |s|
  {
    if s != [] {
      StripNoWhitespace(s[1..]);
      assert [s[0]] + s[1..] == s;
    }
  }

  lemma DropPaddingOfEncode(b: seq<Byte>)
    ensures DropPadding(Encode(b)) == Chars(EncodeSextets(b))
  {
    var body := Chars(EncodeSextets(b));
    var s := Encode(b);
    var n := |s|;
    if |b| % 3 == 0 {
      assert s == body;
      if n > 0 {
        assert IsBase64Char(s[n - 1]);
        assert s[n - 2..][1] == s[n - 1];
      }
    } else if |b| % 3 == 1 {
      assert s == body + "==";
      assert s[n - 2..] == "==";
      assert s[..n - 2] == body;
    } else {
      assert s == body + "=";
      assert s[n - 2] == body[|body| - 1];
      assert IsBase64Char(s[n - 2]);
      assert s[n - 2..][0] == s[n - 2];
      assert s[..n - 1] == body;
    }
  }

  /** What `btoa` produces, forgiving-base64 decodes back to the same bytes. */
  lemma DecodeEncode(b: seq<Byte>)
    ensures ForgivingDecode(Encode(b)) == Some(b)
  {
    var s := Encode(b);
    forall i | 0 <= i < |s|
      ensures !IsAsciiWhitespace(s[i])
    {
    }
    StripNoWhitespace(s);
    DropPaddingOfEncode(b);
    var t := Chars(EncodeSextets(b));
    var v := EncodeSextets(b);
    assert |t| % 4 != 1;
    assert Values(t) == v by {
      forall i | 0 <= i < |t|
        ensures Values(t)[i] == v[i]
      {
        AlphabetBijection(v[i], ' ');
      }
    }
    DecodeEncodeSextets(b);
  }

  // ---------------------------------------------------------------------------
  // btoa and atob on JS strings
  // ---------------------------------------------------------------------------

  /** Every character is at most U+00FF. */
  predicate IsLatin1(s: string)
  {
    forall i :: 0 <= i < |s| ==> s[i] as int < 256
  }

  /** A concatenation is Latin-1 exactly when both parts are. */
  lemma Latin1Concat(a: string, b: string)
    ensures IsLatin1(a + b) <==> IsLatin1(a) && IsLatin1(b)
  {
    if IsLatin1(a + b) {
      forall i | 0 <= i < |a|
        ensures a[i] as int < 256
      {
        assert (a + b)[i] == a[i];
      }
      forall i | 0 <= i < |b|
        ensures b[i] as int < 256
      {
        assert (a + b)[|a| + i] == b[i];
      }
    }
  }

  function Latin1Bytes(s: string): seq<Byte>
    requires IsLatin1(s)
  {
    seq(|s|, i requires 0 <= i < |s| => s[i] as int)
  }

  function BytesToLatin1(b: seq<Byte>): (s: string)
    ensures IsLatin1(s)
  {
    seq(|b|, i requires 0 <= i < |b| => b[i] as char)
  }

  /** `btoa(s)`: `None` where it throws InvalidCharacterError. */
  function Btoa(s: string): (r: Option<string>)
    ensures r.Some? <==> IsLatin1(s)
    ensures r.Some? ==> |r.value| % 4 == 0
  {
    if IsLatin1(s) then Some(Encode(Latin1Bytes(s))) else None
  }

  /** `atob(s)`: `None` where it throws. */
  function Atob(s: string): Option<string>
  {
    match ForgivingDecode(s)
    case None => None
    case Some(b) => Some(BytesToLatin1(b))
  }

  /** `atob(btoa(s)) == s` for every string `btoa` accepts. */
  lemma AtobBtoa(s: string)
    requires IsLatin1(s)
    ensures Btoa(s).Some? && Atob(Btoa(s).value) == Some(s)
  {
    DecodeEncode(Latin1Bytes(s));
    assert BytesToLatin1(Latin1Bytes(s)) == s;
  }

  /** `btoa` throws on a character outside Latin-1, such as U+2013 (an en dash). */
  lemma BtoaRejectsWideChars()
    ensures Btoa("\U{2013}") == None
  {
    assert !IsLatin1("\U{2013}") by {
      assert "\U{2013}"[0] as int >= 256;
    }
  }
}
