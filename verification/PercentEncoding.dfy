/** `urllib.parse.quote(value, safe="")`: UTF-8 (section 3 of RFC 3629), then percent-encoding (section 2.1 of RFC 3986). */
module PercentEncoding {
  import opened Wrappers

  /** Python strings hold arbitrary code points, lone surrogates included. */
  type CodePoint = c: int | 0 <= c < 0x11_0000
  type Text = seq<CodePoint>
  type Byte = b: int | 0 <= b < 0x100

  predicate IsSurrogate(c: CodePoint) {
    0xD800 <= c < 0xE000
  }

  // ----- UTF-8 -----

  function EncodeChar(c: CodePoint): seq<Byte> {
    if c < 0x80 then [c]
    else if c < 0x800 then [0xC0 + c / 0x40, 0x80 + c % 0x40]
    else if c < 0x1_0000 then [0xE0 + c / 0x1000, 0x80 + c / 0x40 % 0x40, 0x80 + c % 0x40]
    else [0xF0 + c / 0x4_0000, 0x80 + c / 0x1000 % 0x40, 0x80 + c / 0x40 % 0x40, 0x80 + c % 0x40]
  }

  /** `None` where Python raises UnicodeEncodeError. */
  function EncodeUtf8(t: Text): Option<seq<Byte>> {
    if t == [] then Some([])
    else if IsSurrogate(t[0]) then None
    else match EncodeUtf8(t[1..])
         case None => None
         case Some(rest) => Some(EncodeChar(t[0]) + rest)
  }

  predicate IsContinuation(bs: seq<Byte>, k: nat) {
    k < |bs| && 0x80 <= bs[k] < 0xC0
  }

  /** The six payload bits of a continuation byte. */
  function Low(b: Byte): int {
    b - 0x80
  }

  /** The strict decoder: the first character and the bytes after it. */
  function DecodeChar(bs: seq<Byte>): (r: Option<(CodePoint, seq<Byte>)>)
    requires bs != []
    ensures r.Some? ==> |r.value.1| < |bs|
  {
    var lead: int := bs[0];
    if lead < 0x80 then Some((lead, bs[1..]))
    else if 0xC2 <= lead < 0xE0 && IsContinuation(bs, 1) then
      Some(((lead - 0xC0) * 0x40 + Low(bs[1]), bs[2..]))
    else if 0xE0 <= lead < 0xF0 && IsContinuation(bs, 1) && IsContinuation(bs, 2) then
      var c := (lead - 0xE0) * 0x1000 + Low(bs[1]) * 0x40 + Low(bs[2]);
      if c < 0x800 || IsSurrogate(c) then None else Some((c, bs[3..]))
    else if 0xF0 <= lead < 0xF5 && IsContinuation(bs, 1) && IsContinuation(bs, 2) && IsContinuation(bs, 3) then
      var c := (lead - 0xF0) * 0x4_0000 + Low(bs[1]) * 0x1000 + Low(bs[2]) * 0x40 + Low(bs[3]);
      if c < 0x1_0000 || c >= 0x11_0000 then None else Some((c, bs[4..]))
    else None
  }

  function DecodeUtf8(bs: seq<Byte>): Option<Text>
    decreases |bs|
  {
    if bs == [] then Some([])
    else match DecodeChar(bs)
         case None => None
         case Some((c, rest)) =>
           match DecodeUtf8(rest)
           case None => None
           case Some(t) => Some([c] + t)
  }

  lemma SixBitDigits(c: CodePoint)
    ensures c == c / 0x40 * 0x40 + c % 0x40
    ensures c / 0x40 == c / 0x1000 * 0x40 + c / 0x40 % 0x40
    ensures c / 0x1000 == c / 0x4_0000 * 0x40 + c / 0x1000 % 0x40
  {
  }

  lemma DecodeCharAfterEncode(c: CodePoint, rest: seq<Byte>)
    requires !IsSurrogate(c)
    ensures DecodeChar(EncodeChar(c) + rest) == Some((c, rest))
  {
    SixBitDigits(c);
    var bs := EncodeChar(c) + rest;
    assert bs[|EncodeChar(c)|..] == rest;
    if c < 0x80 {
    } else if c < 0x800 {
      assert bs[0] == 0xC0 + c / 0x40 && bs[1] == 0x80 + c % 0x40;
    } else if c < 0x1_0000 {
      assert bs[0] == 0xE0 + c / 0x1000 && bs[1] == 0x80 + c / 0x40 % 0x40 && bs[2] == 0x80 + c % 0x40;
    } else {
      assert bs[0] == 0xF0 + c / 0x4_0000 && bs[1] == 0x80 + c / 0x1000 % 0x40;
      assert bs[2] == 0x80 + c / 0x40 % 0x40 && bs[3] == 0x80 + c % 0x40;
    }
  }

  lemma DecodeAfterEncodeChar(c: CodePoint, rest: seq<Byte>)
    requires !IsSurrogate(c)
    ensures DecodeUtf8(EncodeChar(c) + rest) == match DecodeUtf8(rest) case None => None case Some(t) => Some([c] + t)
  {
    hide EncodeChar, DecodeChar;
    DecodeCharAfterEncode(c, rest);
    assert EncodeChar(c) + rest != [] by { EncodedIsNotEmpty(c); }
  }

  lemma EncodedIsNotEmpty(c: CodePoint)
    ensures EncodeChar(c) != []
  {
  }

  /** The character sequence of section 7 of RFC 3629, U+0041 U+2262 U+0391 U+002E, and one beyond the basic plane. */
  lemma StandardExamples()
    ensures EncodeChar(0x41) == [0x41] && EncodeChar(0x2262) == [0xE2, 0x89, 0xA2]
    ensures EncodeChar(0x391) == [0xCE, 0x91] && EncodeChar(0x2E) == [0x2E]
    ensures EncodeChar(0x233B4) == [0xF0, 0xA3, 0x8E, 0xB4]
  {
  }

  lemma {:induction false} EncodableIff(t: Text)
    ensures EncodeUtf8(t).None? <==> exists i :: 0 <= i < |t| && IsSurrogate(t[i])
  {
    if t != [] {
      EncodableIff(t[1..]);
      assert forall i :: 0 < i < |t| ==> t[i] == t[1..][i - 1];
    }
  }

  lemma {:induction false} Utf8RoundTrip(t: Text)
    ensures EncodeUtf8(t).Some? ==> DecodeUtf8(EncodeUtf8(t).value) == Some(t)
  {
    if t != [] && EncodeUtf8(t).Some? {
      Utf8RoundTrip(t[1..]);
      hide EncodeChar, DecodeUtf8;
      DecodeAfterEncodeChar(t[0], EncodeUtf8(t[1..]).value);
      assert t == [t[0]] + t[1..];
    }
  }

  ghost predicate DecodesStrictly(bs: seq<Byte>)
    requires bs != []
  {
    DecodeChar(bs).Some? ==>
      var (c, rest) := DecodeChar(bs).value; !IsSurrogate(c) && bs == EncodeChar(c) + rest
  }

  lemma TwoBytesStrictly(bs: seq<Byte>)
    requires |bs| >= 2 && bs[0] < 0xE0
    ensures DecodesStrictly(bs)
  {
    if bs[0] < 0x80 {
      assert bs == [bs[0]] + bs[1..];
    } else if DecodeChar(bs).Some? {
      Digits(bs[0] - 0xC0, Low(bs[1]));
      assert bs == [bs[0], bs[1]] + bs[2..];
    }
  }

  lemma ThreeBytesStrictly(bs: seq<Byte>)
    requires |bs| >= 3 && 0xE0 <= bs[0] < 0xF0
    ensures DecodesStrictly(bs)
  {
    if DecodeChar(bs).Some? {
      var c := DecodeChar(bs).value.0;
      Digits(bs[0] - 0xE0, Low(bs[1]));
      Digits((bs[0] - 0xE0) * 0x40 + Low(bs[1]), Low(bs[2]));
      SixBitDigits(c);
      assert bs == [bs[0], bs[1], bs[2]] + bs[3..];
    }
  }

  lemma FourBytesStrictly(bs: seq<Byte>)
    requires |bs| >= 4 && 0xF0 <= bs[0]
    ensures DecodesStrictly(bs)
  {
    if DecodeChar(bs).Some? {
      var c := DecodeChar(bs).value.0;
      Digits(bs[0] - 0xF0, Low(bs[1]));
      Digits((bs[0] - 0xF0) * 0x40 + Low(bs[1]), Low(bs[2]));
      Digits(((bs[0] - 0xF0) * 0x40 + Low(bs[1])) * 0x40 + Low(bs[2]), Low(bs[3]));
      SixBitDigits(c);
      assert bs == [bs[0], bs[1], bs[2], bs[3]] + bs[4..];
    }
  }

  /** The decoder is strict: only the bytes the encoder gives for a character are accepted for it. */
  lemma EncodeAfterDecodeChar(bs: seq<Byte>)
    requires bs != []
    ensures DecodesStrictly(bs)
  {
    if bs[0] < 0xE0 && |bs| >= 2 {
      TwoBytesStrictly(bs);
    } else if 0xE0 <= bs[0] < 0xF0 && |bs| >= 3 {
      ThreeBytesStrictly(bs);
    } else if 0xF0 <= bs[0] && |bs| >= 4 {
      FourBytesStrictly(bs);
    }
  }

  lemma Digits(high: int, low: int)
    requires 0 <= high && 0 <= low < 0x40
    ensures (high * 0x40 + low) / 0x40 == high && (high * 0x40 + low) % 0x40 == low
  {
  }

  /** So decoding, where it succeeds, loses nothing. */
  lemma {:induction false} EncodeAfterDecode(bs: seq<Byte>)
    ensures DecodeUtf8(bs).Some? ==> EncodeUtf8(DecodeUtf8(bs).value) == Some(bs)
    decreases |bs|
  {
    if bs != [] && DecodeUtf8(bs).Some? {
      var (c, rest) := DecodeChar(bs).value;
      EncodeAfterDecodeChar(bs);
      EncodeAfterDecode(rest);
      hide EncodeChar, DecodeChar, IsSurrogate;
      assert ([c] + DecodeUtf8(rest).value)[1..] == DecodeUtf8(rest).value;
    }
  }

  // ----- percent-encoding -----

  /** Section 2.3 of RFC 3986. */
  predicate IsUnreserved(b: int) {
    'a' as int <= b <= 'z' as int || 'A' as int <= b <= 'Z' as int || '0' as int <= b <= '9' as int
    || b == '-' as int || b == '.' as int || b == '_' as int || b == '~' as int
  }

  /** The printable ASCII characters that are reserved or excluded, section 2.2 and appendix A of RFC 3986. */
  const DELIMITERS := "!\"#$%&'()*+,/:;<=>?@[\\]^`{|}"

  lemma UnreservedIff(c: char)
    ensures IsUnreserved(c as int) <==> 0x21 <= c as int <= 0x7E && c !in DELIMITERS
  {
  }

  function HexDigit(n: int): char
    requires 0 <= n < 16
  {
    if n < 10 then ('0' as int + n) as char else ('A' as int + n - 10) as char
  }

  function HexValue(c: char): Option<int> {
    if '0' <= c <= '9' then Some(c as int - '0' as int)
    else if 'A' <= c <= 'F' then Some(c as int - 'A' as int + 10)
    else if 'a' <= c <= 'f' then Some(c as int - 'a' as int + 10)
    else None
  }

  function QuoteByte(b: Byte): string {
    if IsUnreserved(b) then [b as char] else ['%', HexDigit(b / 16), HexDigit(b % 16)]
  }

  function QuoteBytes(bs: seq<Byte>): string {
    if bs == [] then "" else QuoteByte(bs[0]) + QuoteBytes(bs[1..])
  }

  /** `quote(t, safe="")`; `None` where it raises UnicodeEncodeError. */
  function Quote(t: Text): Option<string> {
    match EncodeUtf8(t)
    case None => None
    case Some(bs) => Some(QuoteBytes(bs))
  }

  function UnquoteBytes(s: string): Option<seq<Byte>>
    decreases |s|
  {
    if s == "" then Some([])
    else if s[0] == '%' then
      if |s| < 3 || HexValue(s[1]).None? || HexValue(s[2]).None? then None
      else match UnquoteBytes(s[3..])
           case None => None
           case Some(rest) => Some([HexValue(s[1]).value * 16 + HexValue(s[2]).value] + rest)
    else if s[0] as int >= 0x80 then None
    else match UnquoteBytes(s[1..])
         case None => None
         case Some(rest) => Some([s[0] as int] + rest)
  }

  function Unquote(s: string): Option<Text> {
    match UnquoteBytes(s)
    case None => None
    case Some(bs) => DecodeUtf8(bs)
  }

  lemma {:induction false} UnquoteBytesAfterQuote(bs: seq<Byte>)
    ensures UnquoteBytes(QuoteBytes(bs)) == Some(bs)
  {
    if bs != [] {
      var head, tail := QuoteByte(bs[0]), QuoteBytes(bs[1..]);
      UnquoteBytesAfterQuote(bs[1..]);
      assert (head + tail)[|head|..] == tail;
      assert HexValue(HexDigit(bs[0] / 16)) == Some(bs[0] / 16);
      assert HexValue(HexDigit(bs[0] % 16)) == Some(bs[0] % 16);
      assert bs == [bs[0]] + bs[1..];
    }
  }

  /** Every string without lone surrogates is quoted, and unquoting gives it back. */
  lemma QuoteRoundTrip(t: Text)
    ensures Quote(t).None? <==> exists i :: 0 <= i < |t| && 0xD800 <= t[i] <= 0xDFFF
    ensures Quote(t).Some? ==> Unquote(Quote(t).value) == Some(t)
  {
    EncodableIff(t);
    assert forall i :: 0 <= i < |t| ==> (IsSurrogate(t[i]) <==> 0xD800 <= t[i] <= 0xDFFF);
    Utf8RoundTrip(t);
    if EncodeUtf8(t).Some? {
      UnquoteBytesAfterQuote(EncodeUtf8(t).value);
    }
  }

  /** The characters a quoted string is made of; no delimiter is among them. */
  predicate IsQuoted(c: char) {
    c == '%' || IsUnreserved(c as int)
  }

  lemma {:induction false} QuotedIsSafe(bs: seq<Byte>)
    ensures forall i :: 0 <= i < |QuoteBytes(bs)| ==> IsQuoted(QuoteBytes(bs)[i])
  {
    if bs != [] {
      QuotedIsSafe(bs[1..]);
    }
  }

  /** A byte that is not unreserved becomes a percent sign and two upper-case hexadecimal digits. */
  lemma EscapesAreUpperCase(b: Byte)
    ensures QuoteByte(b) == if IsUnreserved(b) then [b as char]
                            else ['%', "0123456789ABCDEF"[b / 16], "0123456789ABCDEF"[b % 16]]
  {
  }

  /** What was encoded before is encoded again. */
  lemma PercentSignIsEncoded(rest: seq<Byte>)
    ensures QuoteBytes(['%' as int] + rest) == "%25" + QuoteBytes(rest)
    ensures QuoteBytes([' ' as int] + rest) == "%20" + QuoteBytes(rest)
    ensures QuoteBytes(['/' as int] + rest) == "%2F" + QuoteBytes(rest)
  {
  }

  /** No quoted text holds a space, a control or non-ASCII character, or any delimiter but the percent sign. */
  lemma QuotedHasNoDelimiters(t: Text)
    requires Quote(t).Some?
    ensures forall i :: 0 <= i < |Quote(t).value| ==>
              var c := Quote(t).value[i]; 0x21 <= c as int <= 0x7E && (c in DELIMITERS ==> c == '%')
    ensures forall c :: c in "/?#&=+ " ==> c !in Quote(t).value
  {
    var q := Quote(t).value;
    QuotedIsSafe(EncodeUtf8(t).value);
    forall i | 0 <= i < |q| ensures 0x21 <= q[i] as int <= 0x7E && (q[i] in DELIMITERS ==> q[i] == '%') {
      assert IsQuoted(q[i]);
      UnreservedIff(q[i]);
    }
    forall c | c in "/?#&=+ " ensures c !in q {
      assert c == ' ' || c in DELIMITERS;
    }
  }

  /** The code points of an ASCII string. */
  function Codes(s: string): Text
    requires forall i :: 0 <= i < |s| ==> s[i] as int < 0x80
  {
    seq(|s|, i requires 0 <= i < |s| => s[i] as int)
  }

  lemma {:induction false} AsciiIsItsUtf8(s: string)
    requires forall i :: 0 <= i < |s| ==> s[i] as int < 0x80
    ensures EncodeUtf8(Codes(s)) == Some(Codes(s))
  {
    if s != "" {
      AsciiIsItsUtf8(s[1..]);
      assert Codes(s)[1..] == Codes(s[1..]);
      assert Codes(s) == [s[0] as int] + Codes(s[1..]);
    }
  }

  lemma {:induction false} QuoteNeverShortens(bs: seq<Byte>)
    ensures |QuoteBytes(bs)| >= |bs|
    ensures |QuoteBytes(bs)| == |bs| <==> forall i :: 0 <= i < |bs| ==> IsUnreserved(bs[i])
  {
    if bs != [] {
      QuoteNeverShortens(bs[1..]);
      assert forall i :: 0 < i < |bs| ==> bs[i] == bs[1..][i - 1];
    }
  }

  lemma {:induction false} UnreservedIsKept(s: string)
    requires forall i :: 0 <= i < |s| ==> s[i] as int < 0x80 && IsUnreserved(s[i] as int)
    ensures QuoteBytes(Codes(s)) == s
  {
    if s != "" {
      UnreservedIsKept(s[1..]);
      assert Codes(s)[1..] == Codes(s[1..]);
    }
  }

  /** Quoting leaves an ASCII string alone iff it is unreserved throughout: anything pre-encoded is encoded again. */
  lemma QuoteIsIdentityIff(s: string)
    requires forall i :: 0 <= i < |s| ==> s[i] as int < 0x80
    ensures Quote(Codes(s)) == Some(s) <==> forall i :: 0 <= i < |s| ==> IsUnreserved(s[i] as int)
  {
    AsciiIsItsUtf8(s);
    QuoteNeverShortens(Codes(s));
    if forall i :: 0 <= i < |s| ==> IsUnreserved(s[i] as int) {
      UnreservedIsKept(s);
    } else {
      var i :| 0 <= i < |s| && !IsUnreserved(s[i] as int);
      assert !IsUnreserved(Codes(s)[i]);
    }
  }
}
