/** `java.net.URLDecoder.decode(s, "UTF-8")` as `splitQuery` uses it on each key and
    value, and the matching encoder for the percent-encoding round trip of section
    2.1 of RFC 3986 (with '+' for space, as in application/x-www-form-urlencoded). */
module UrlDecoder {
  import opened JavaLang

  /** Why `URLDecoder.decode` throws IllegalArgumentException. */
  datatype DecodeError =
    | IncompleteEscape          // a '%' with fewer than two characters after it
    | IllegalHex(text: string)  // the two characters after '%' are not a hex number
    | NegativeHex               // they are a hex number below zero, as "-1"

  /** The exception's message, as `e.getMessage()` returns it. The `IllegalHex` text
      carries the NumberFormatException message in JDK 8's wording. */
  function Message(e: DecodeError): string {
    match e
    case IncompleteEscape => "URLDecoder: Incomplete trailing escape (%) pattern"
    case IllegalHex(text) =>
      "URLDecoder: Illegal hex characters in escape (%) pattern - For input string: \"" + text + "\""
    case NegativeHex => "URLDecoder: Illegal hex characters in escape (%) pattern - negative value"
  }

  /** `Character.digit(c, 16)` over the ASCII hex digits. */
  function HexValue(c: char): (r: Option<nat>)
    ensures r.Some? ==> r.value < 16
  {
    if '0' <= c <= '9' then Some(c as int - '0' as int)
    else if 'a' <= c <= 'f' then Some(c as int - 'a' as int + 10)
    else if 'A' <= c <= 'F' then Some(c as int - 'A' as int + 10)
    else None
  }

  /** `Integer.parseInt(a + b, 16)` for the two characters after a '%', and the
      decoder's refusal of a negative result: a sign may stand in front of a single
      hex digit, so "+7" reads as 7 and "-0" as 0, while "-7" is refused. */
  function EscapeValue(a: char, b: char): (r: Result<nat, DecodeError>)
    ensures r.Ok? ==> r.value < 256
    ensures r.Ok? && HexValue(a).Some? ==> HexValue(b).Some? && r.value == 16 * HexValue(a).value + HexValue(b).value
  {
    match HexValue(b)
    case None => Err(IllegalHex([a, b]))
    case Some(low) =>
      if a == '+' then Ok(low)
      else if a == '-' then (if low == 0 then Ok(0) else Err(NegativeHex))
      else
        match HexValue(a)
        case None => Err(IllegalHex([a, b]))
        case Some(high) => Ok(16 * high + low)
  }

  function Prepend(c: char, r: Result<string, DecodeError>): Result<string, DecodeError> {
    match r
    case Ok(t) => Ok([c] + t)
    case Err(e) => Err(e)
  }

  /** `URLDecoder.decode(s, "UTF-8")`: '+' becomes a space, "%XX" becomes the character
      with code XX, everything else is kept; the first malformed escape is the error.
      Text without '%' and '+' comes back unchanged, and decoding never lengthens. */
  function Decode(s: string): (r: Result<string, DecodeError>)
    ensures '%' !in s && '+' !in s ==> r == Ok(s)
    ensures r.Ok? ==> |r.value| <= |s|
    decreases |s|
  {
    if s == [] then Ok([])
    else if s[0] == '+' then Prepend(' ', Decode(s[1..]))
    else if s[0] == '%' then
      if |s| < 3 then Err(IncompleteEscape)
      else
        match EscapeValue(s[1], s[2])
        case Err(e) => Err(e)
        case Ok(v) => Prepend(v as char, Decode(s[3..]))
    else
      assert s == [s[0]] + s[1..];
      Prepend(s[0], Decode(s[1..]))
  }

  predicate IsAscii(s: string) {
    forall k :: 0 <= k < |s| ==> s[k] as int < 128
  }

  /** The characters `URLEncoder.encode` leaves as they are. */
  predicate Unreserved(c: char) {
    'a' <= c <= 'z' || 'A' <= c <= 'Z' || '0' <= c <= '9' || c == '.' || c == '-' || c == '*' || c == '_'
  }

  function HexDigit(n: nat): (c: char)
    requires n < 16
    ensures HexValue(c) == Some(n)
    ensures Unreserved(c)
  {
    if n < 10 then ('0' as int + n) as char else ('A' as int + n - 10) as char
  }

  function EncodeChar(c: char): string
    requires c as int < 128
  {
    if Unreserved(c) then [c]
    else if c == ' ' then "+"
    else ['%', HexDigit(c as int / 16), HexDigit(c as int % 16)]
  }

  /** `URLEncoder.encode(s, "UTF-8")` for ASCII text. */
  function Encode(s: string): string
    requires IsAscii(s)
  {
    if s == [] then [] else EncodeChar(s[0]) + Encode(s[1..])
  }

  /** The characters `URLEncoder.encode` can produce. */
  predicate EncodedChar(c: char) {
    Unreserved(c) || c == '+' || c == '%'
  }

  /** Encoded text holds only unreserved characters, '+' and '%', so never a '&', '='
      or '?' of the query syntax. */
  lemma {:induction false} EncodeAlphabet(s: string)
    requires IsAscii(s)
    ensures forall k :: 0 <= k < |Encode(s)| ==> EncodedChar(Encode(s)[k])
  {
    if s != [] {
      EncodeAlphabet(s[1..]);
      var e, rest := EncodeChar(s[0]), Encode(s[1..]);
      assert Encode(s) == e + rest;
      assert forall k :: |e| <= k < |e + rest| ==> (e + rest)[k] == rest[k - |e|];
    }
  }

  /** A character outside that alphabet never occurs in encoded text. */
  lemma EncodeLacks(s: string, c: char)
    requires IsAscii(s) && !EncodedChar(c)
    ensures c !in Encode(s)
  {
    EncodeAlphabet(s);
  }

  /** Decoding an encoded character in front of `rest` yields that character in
      front of the decoding of `rest`. */
  lemma DecodeEncodedChar(c: char, rest: string)
    requires c as int < 128
    ensures Decode(EncodeChar(c) + rest) == Prepend(c, Decode(rest))
  {
    var t := EncodeChar(c) + rest;
    if Unreserved(c) {
      assert t[0] == c && t[1..] == rest;
    } else if c == ' ' {
      assert t[0] == '+' && t[1..] == rest;
    } else {
      DecodeEscape(c, rest);
    }
  }

  /** The "%XX" escape of `c` decodes back to `c`. */
  lemma DecodeEscape(c: char, rest: string)
    requires c as int < 128 && !Unreserved(c) && c != ' '
    ensures Decode(EncodeChar(c) + rest) == Prepend(c, Decode(rest))
  {
    var t := EncodeChar(c) + rest;
    assert t[0] == '%' && t[1] == HexDigit(c as int / 16) && t[2] == HexDigit(c as int % 16);
    assert t[3..] == rest;
    assert EscapeValue(t[1], t[2]) == Ok(c as int);
  }

  /** Decoding undoes encoding: the percent-encoding round trip. */
  lemma {:induction false} DecodeEncode(s: string)
    requires IsAscii(s)
    ensures Decode(Encode(s)) == Ok(s)
  {
    if s != [] {
      DecodeEncode(s[1..]);
      DecodeEncodedChar(s[0], Encode(s[1..]));
      assert s == [s[0]] + s[1..];
    }
  }
}
