/** Percent coding of URL components (section 2.1 of RFC 3986). */
module Url {
  import opened Text
  import opened Wrappers

  /** The characters that `encode` leaves alone: the unreserved set of section 2.3 of RFC 3986. */
  predicate IsUnreserved(c: char) {
    'A' <= c <= 'Z' || 'a' <= c <= 'z' || '0' <= c <= '9' || c in {'-', '.', '_', '~'}
  }

  function HexDigit(d: nat): char
    requires d < 16
  {
    if d < 10 then ('0' as int + d) as char else ('A' as int + d - 10) as char
  }

  function HexValue(c: char): Option<nat> {
    if '0' <= c <= '9' then Some(c as int - '0' as int)
    else if 'A' <= c <= 'F' then Some(c as int - 'A' as int + 10)
    else if 'a' <= c <= 'f' then Some(c as int - 'a' as int + 10)
    else None
  }

  /** `u8::from_str_radix` on two characters: a leading plus sign is skipped. */
  function ParseHexByte(first: char, second: char): (b: Option<nat>)
    ensures b.Some? ==> b.value < 256
  {
    match (HexValue(first), HexValue(second))
    case (Some(high), Some(low)) => Some(16 * high + low)
    case (None, Some(low)) => if first == '+' then Some(low) else None
    case _ => None
  }

  /** The character that keeps only the low byte of `c`, as the cast `c as u8` does. */
  function LowByte(c: char): char {
    (c as int % 256) as char
  }

  function EncodedChar(c: char): string {
    if IsUnreserved(c) then [c]
    else ['%', HexDigit(LowByte(c) as int / 16), HexDigit(LowByte(c) as int % 16)]
  }

  function Encoded(s: string): string {
    if s == "" then "" else EncodedChar(s[0]) + Encoded(s[1..])
  }

  function Prepend(p: string, r: Option<string>): Option<string> {
    match r
    case None => None
    case Some(rest) => Some(p + rest)
  }

  function Decoded(s: string): Option<string> {
    if s == "" then Some("")
    else if s[0] == '+' then Prepend(" ", Decoded(s[1..]))
    else if s[0] == '%' then
      if |s| < 3 then None
      else match ParseHexByte(s[1], s[2])
           case None => None
           case Some(b) => Prepend([b as char], Decoded(s[3..]))
    else Prepend([s[0]], Decoded(s[1..]))
  }

  method Encode(url: string) returns (out: string)
    ensures out == Encoded(url)
  {
    out := "";
    for i := 0 to |url|
      invariant out + Encoded(url[i..]) == Encoded(url)
    {
      EncodeStep(out, url, i);
      var c := url[i];
      if IsUnreserved(c) {
        out := out + [c];
      } else {
        var byte := LowByte(c) as int;
        out := out + ['%', HexDigit(byte / 16), HexDigit(byte % 16)];
      }
    }
    assert url[|url|..] == "";
  }

  lemma EncodeStep(out: string, url: string, i: nat)
    requires i < |url|
    ensures out + Encoded(url[i..]) == (out + EncodedChar(url[i])) + Encoded(url[i + 1..])
  {
    assert url[i..][0] == url[i] && url[i..][1..] == url[i + 1..];
  }

  method Decode(url: string) returns (r: Option<string>)
    ensures r == Decoded(url)
  {
    var out, i := "", 0;
    assert url[0..] == url;
    PrependNothing(Decoded(url));
    while i < |url|
      invariant i <= |url|
      invariant Decoded(url) == Prepend(out, Decoded(url[i..]))
    {
      var c, before := url[i], out;
      if c == '+' {
        out, i := out + " ", i + 1;
      } else if c == '%' {
        if i + 2 >= |url| {
          return None;
        }
        var byte := ParseHexByte(url[i + 1], url[i + 2]);
        if byte.None? {
          return None;
        }
        assert url[i..][3..] == url[i + 3..];
        out, i := out + [byte.value as char], i + 3;
      } else {
        out, i := out + [c], i + 1;
      }
      assert forall rest: string :: out + rest == before + (out[|before|..] + rest);
    }
    assert url[i..] == "" && out + "" == out;
    return Some(out);
  }

  lemma PrependNothing(r: Option<string>)
    ensures Prepend("", r) == r
  {
    if r.Some? {
      assert "" + r.value == r.value;
    }
  }

  predicate Latin1(s: string) {
    forall i :: 0 <= i < |s| ==> s[i] as int < 256
  }

  function LowBytes(s: string): string {
    seq(|s|, i requires 0 <= i < |s| => LowByte(s[i]))
  }

  lemma EncodedCharDecodes(c: char, rest: string)
    ensures Decoded(EncodedChar(c) + rest) == Prepend([LowByte(c)], Decoded(rest))
  {
    var s := EncodedChar(c) + rest;
    if IsUnreserved(c) {
      assert s[1..] == rest;
    } else {
      assert s[3..] == rest;
    }
  }

  /** Decoding an encoded string never fails; it gives back the low byte of each character. */
  lemma {:induction false} DecodeEncode(s: string)
    ensures Decoded(Encoded(s)) == Some(LowBytes(s))
  {
    if s == "" {
    } else {
      DecodeEncode(s[1..]);
      EncodedCharDecodes(s[0], Encoded(s[1..]));
      assert LowBytes(s) == [LowByte(s[0])] + LowBytes(s[1..]);
    }
  }

  /** A text as an HTML form sends it: a space is a plus sign. */
  function FormEncoded(s: string): string {
    if s == "" then "" else (if s[0] == ' ' then "+" else EncodedChar(s[0])) + FormEncoded(s[1..])
  }

  /** It is decoded like any other: the plus signs become spaces again. */
  lemma {:induction false} DecodeForm(s: string)
    ensures Decoded(FormEncoded(s)) == Some(LowBytes(s))
  {
    if s == "" {
    } else {
      var rest := FormEncoded(s[1..]);
      DecodeForm(s[1..]);
      if s[0] == ' ' {
        assert FormEncoded(s) == "+" + rest && ("+" + rest)[1..] == rest;
      } else {
        assert FormEncoded(s) == EncodedChar(s[0]) + rest;
        EncodedCharDecodes(s[0], rest);
      }
      assert Decoded(FormEncoded(s)) == Prepend([LowByte(s[0])], Decoded(rest));
      assert LowBytes(s) == [LowByte(s[0])] + LowBytes(s[1..]);
    }
  }

  lemma LowBytesKeep(s: string)
    ensures LowBytes(s) == s <==> Latin1(s)
  {
    if !Latin1(s) {
      var i :| 0 <= i < |s| && s[i] as int >= 256;
      assert LowBytes(s)[i] != s[i];
    }
  }

  /** The round trip holds for exactly the strings of characters up to U+00FF. */
  lemma RoundTrip(s: string)
    ensures Decoded(Encoded(s)) == Some(s) <==> Latin1(s)
  {
    DecodeEncode(s);
    LowBytesKeep(s);
  }

  lemma {:induction false} DecodeShrinks(s: string)
    ensures Decoded(s).Some? ==> |Decoded(s).value| <= |s|
    decreases |s|
  {
    if s != "" {
      DecodeShrinks(s[1..]);
      if |s| >= 3 {
        DecodeShrinks(s[3..]);
      }
    }
  }

  /** Decoding leaves alone exactly the strings without a plus or percent sign. */
  lemma {:induction false} DecodeKeeps(s: string)
    ensures Decoded(s) == Some(s) <==> '+' !in s && '%' !in s
    decreases |s|
  {
    if s != "" {
      DecodeKeeps(s[1..]);
      assert s == [s[0]] + s[1..];
      if s[0] == '%' && |s| >= 3 {
        DecodeShrinks(s[3..]);
      }
    }
  }

  lemma {:induction false} DecodedIsLatin1(s: string)
    requires Latin1(s)
    ensures Decoded(s).Some? ==> Latin1(Decoded(s).value)
    decreases |s|
  {
    if s != "" {
      DecodedIsLatin1(s[1..]);
      if |s| >= 3 {
        DecodedIsLatin1(s[3..]);
      }
    }
  }

  /** Only unreserved characters, and `%` followed by two uppercase hexadecimal digits. */
  predicate PercentEncoded(s: string) {
    s == ""
    || (IsUnreserved(s[0]) && PercentEncoded(s[1..]))
    || (|s| >= 3 && s[0] == '%' && UpperHex(s[1]) && UpperHex(s[2]) && PercentEncoded(s[3..]))
  }

  predicate UpperHex(c: char) {
    '0' <= c <= '9' || 'A' <= c <= 'F'
  }

  lemma {:induction false} EncodeIsPercentEncoded(s: string)
    ensures PercentEncoded(Encoded(s))
    ensures forall k :: 0 <= k < |Encoded(s)| ==> IsUnreserved(Encoded(s)[k]) || Encoded(s)[k] == '%'
    ensures s != "" ==> Encoded(s) != ""
  {
    if s != "" {
      EncodeIsPercentEncoded(s[1..]);
      var e := Encoded(s);
      if IsUnreserved(s[0]) {
        assert e[1..] == Encoded(s[1..]);
      } else {
        assert e[3..] == Encoded(s[1..]);
      }
    }
  }

  /** None of the separators of a query, a form or a line occurs in an encoded text. */
  lemma EncodedPlain(s: string)
    ensures Free(Encoded(s), {'&', '=', ':', '\n'}) && NoWhitespace(Encoded(s))
  {
    EncodeIsPercentEncoded(s);
  }

  predicate IsHex(c: char) {
    HexValue(c).Some?
  }

  /** Every percent sign starts a triplet of section 2.1 of RFC 3986, with digits in either case. */
  predicate Triplets(s: string)
    decreases |s|
  {
    s == ""
    || (s[0] != '%' && Triplets(s[1..]))
    || (s[0] == '%' && |s| >= 3 && IsHex(s[1]) && IsHex(s[2]) && Triplets(s[3..]))
  }

  /** Reading from the left, some percent sign is followed by a plus sign and a digit. */
  predicate Signed(s: string)
    decreases |s|
  {
    s != "" &&
    if s[0] != '%' then Signed(s[1..])
    else |s| >= 3 && ((s[1] == '+' && IsHex(s[2])) || Signed(s[3..]))
  }

  /** Every percent sign is followed by a digit or a plus sign, and a digit. */
  predicate SignedTriplets(s: string)
    decreases |s|
  {
    s == ""
    || (s[0] != '%' && SignedTriplets(s[1..]))
    || (s[0] == '%' && |s| >= 3 && (IsHex(s[1]) || s[1] == '+') && IsHex(s[2]) && SignedTriplets(s[3..]))
  }

  /** Which strings are decoded: those of section 2.1, and some with a sign. */
  lemma {:induction false} DecodesTriplets(s: string)
    ensures Triplets(s) <==> Decoded(s).Some? && !Signed(s)
    ensures SignedTriplets(s) <==> Decoded(s).Some?
    decreases |s|
  {
    if s != "" {
      DecodesTriplets(s[1..]);
      if |s| >= 3 {
        DecodesTriplets(s[3..]);
      }
    }
  }

  function LowerHexDigit(d: nat): char
    requires d < 16
  {
    if d < 10 then ('0' as int + d) as char else ('a' as int + d - 10) as char
  }

  /** A triplet stands for the byte that its two digits write, in either letter case. */
  lemma DecodeTriplet(high: nat, low: nat, rest: string)
    requires high < 16 && low < 16
    ensures var byte := Prepend([(16 * high + low) as char], Decoded(rest));
            && Decoded(['%', HexDigit(high), HexDigit(low)] + rest) == byte
            && Decoded(['%', LowerHexDigit(high), LowerHexDigit(low)] + rest) == byte
  {
    assert HexValue(HexDigit(high)) == HexValue(LowerHexDigit(high)) == Some(high);
    assert HexValue(HexDigit(low)) == HexValue(LowerHexDigit(low)) == Some(low);
    assert (['%', HexDigit(high), HexDigit(low)] + rest)[3..] == rest;
    assert (['%', LowerHexDigit(high), LowerHexDigit(low)] + rest)[3..] == rest;
  }

  /** Section 2.1 asks for two digits, but the sign is accepted. */
  lemma SignIsAccepted()
    ensures Decoded("%+F") == Some([15 as char])
  {
    var s := "%+F";
    assert HexValue('F') == Some(15) && HexValue('+') == None;
    assert ParseHexByte(s[1], s[2]) == Some(15);
    assert s[3..] == "";
    assert [15 as char] + "" == [15 as char];
  }
}
