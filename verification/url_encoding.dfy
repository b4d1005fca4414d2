/**
 * `urllib.parse.quote_plus` as `urlencode` applies it to every key and value:
 * the text is encoded as UTF-8 (RFC 3629), the unreserved characters
 * `A-Z a-z 0-9 _ . - ~` stay as they are, a space becomes `+`, and every other
 * byte becomes `%XX` with upper-case hex digits (section 2.1 of RFC 3986).
 * A decoder for this form shows that the encoding loses nothing.
 */
module UrlEncoding {
  import opened Values

  type Byte = b: int | 0 <= b < 256

  predicate IsUnreserved(c: char)
  {
    || ('A' <= c <= 'Z') || ('a' <= c <= 'z') || ('0' <= c <= '9')
    || c == '_' || c == '.' || c == '-' || c == '~'
  }

  function HexChar(d: int): (c: char)
    requires 0 <= d < 16
    ensures ('0' <= c <= '9') || ('A' <= c <= 'F')
  {
    if d < 10 then ('0' as int + d) as char else ('A' as int + d - 10) as char
  }

  /** The value of a hex digit in either letter case. */
  function HexValue(c: char): (r: Option<int>)
    ensures r.Some? ==> 0 <= r.value < 16
  {
    if '0' <= c <= '9' then Some(c as int - '0' as int)
    else if 'A' <= c <= 'F' then Some(c as int - 'A' as int + 10)
    else if 'a' <= c <= 'f' then Some(c as int - 'a' as int + 10)
    else None
  }

  lemma HexRoundTrip(d: int)
    requires 0 <= d < 16
    ensures HexValue(HexChar(d)) == Some(d)
  {
  }

  // ---- UTF-8 ----

  predicate IsContinuation(b: Byte)
  {
    0x80 <= b < 0xC0
  }

  /** The UTF-8 bytes of one character: one byte below U+0080, then two,
      three or four bytes, each continuation byte carrying six bits. */
  function Utf8Char(c: char): (r: seq<Byte>)
    ensures 1 <= |r| <= 4
    ensures |r| == 1 <==> c as int < 0x80
    ensures |r| == 1 ==> r[0] == c as int
    ensures forall i :: 1 <= i < |r| ==> IsContinuation(r[i])
  {
    var n := c as int;
    if n < 0x80 then [n]
    else if n < 0x800 then [0xC0 + n / 64, 0x80 + n % 64]
    else if n < 0x10000 then [0xE0 + n / 4096, 0x80 + (n / 64) % 64, 0x80 + n % 64]
    else [0xF0 + n / 262144, 0x80 + (n / 4096) % 64, 0x80 + (n / 64) % 64, 0x80 + n % 64]
  }

  function Utf8(s: string): seq<Byte>
  {
    if |s| == 0 then [] else Utf8Char(s[0]) + Utf8(s[1..])
  }

  /** A code point that is a Unicode scalar value, as a character. */
  function Scalar(n: int, len: nat): Option<(char, nat)>
  {
    if 0 <= n < 0xD800 || 0xE000 <= n < 0x11_0000 then Some((n as char, len)) else None
  }

  /** Decodes the first character of `bs` and says how many bytes it took. */
  function DecodeFirst(bs: seq<Byte>): (r: Option<(char, nat)>)
    requires |bs| > 0
    ensures r.Some? ==> 1 <= r.value.1 <= |bs|
  {
    var b0: int := bs[0];
    if b0 < 0x80 then Scalar(b0, 1)
    else if 0xC0 <= b0 < 0xE0 && |bs| >= 2 && IsContinuation(bs[1]) then
      Scalar((b0 - 0xC0) * 64 + (bs[1] as int - 0x80), 2)
    else if 0xE0 <= b0 < 0xF0 && |bs| >= 3 && IsContinuation(bs[1]) && IsContinuation(bs[2]) then
      Scalar((b0 - 0xE0) * 4096 + (bs[1] as int - 0x80) * 64 + (bs[2] as int - 0x80), 3)
    else if 0xF0 <= b0 < 0xF8 && |bs| >= 4 && IsContinuation(bs[1]) && IsContinuation(bs[2]) && IsContinuation(bs[3]) then
      Scalar((b0 - 0xF0) * 262144 + (bs[1] as int - 0x80) * 4096 + (bs[2] as int - 0x80) * 64 + (bs[3] as int - 0x80), 4)
    else None
  }

  function DecodeUtf8(bs: seq<Byte>): Option<string>
    decreases |bs|
  {
    if |bs| == 0 then Some("")
    else
      match DecodeFirst(bs)
      case None => None
      case Some(first) =>
        match DecodeUtf8(bs[first.1..])
        case None => None
        case Some(rest) => Some([first.0] + rest)
  }

  lemma DecodeFirstUtf8Char(c: char, t: seq<Byte>)
    ensures DecodeFirst(Utf8Char(c) + t) == Some((c, |Utf8Char(c)|))
  {
    var n := c as int;
    if n < 0x80 {
    } else if n < 0x800 {
      DecodeTwoBytes(c, t);
    } else if n < 0x10000 {
      DecodeThreeBytes(c, t);
    } else {
      DecodeFourBytes(c, t);
    }
  }

  /** A code point split into six-bit groups reassembles from them. */
  lemma SixBitGroups(n: nat)
    ensures n == (n / 64) * 64 + n % 64
    ensures n / 64 == (n / 4096) * 64 + (n / 64) % 64
    ensures n / 4096 == (n / 262144) * 64 + (n / 4096) % 64
    ensures n / 4096 == (n / 64) / 64 && n / 262144 == (n / 4096) / 64
  {
  }

  lemma DecodeTwoBytes(c: char, t: seq<Byte>)
    requires 0x80 <= c as int < 0x800
    ensures DecodeFirst(Utf8Char(c) + t) == Some((c, 2))
  {
    var n := c as int;
    var bs := Utf8Char(c) + t;
    assert bs[0] == 0xC0 + n / 64 && bs[1] == 0x80 + n % 64;
    assert (bs[0] as int - 0xC0) * 64 + (bs[1] as int - 0x80) == n by {
      SixBitGroups(n);
    }
  }

  lemma DecodeThreeBytes(c: char, t: seq<Byte>)
    requires 0x800 <= c as int < 0x10000
    ensures DecodeFirst(Utf8Char(c) + t) == Some((c, 3))
  {
    var n := c as int;
    var bs := Utf8Char(c) + t;
    assert bs[0] == 0xE0 + n / 4096 && bs[1] == 0x80 + (n / 64) % 64 && bs[2] == 0x80 + n % 64;
    assert (bs[0] as int - 0xE0) * 4096 + (bs[1] as int - 0x80) * 64 + (bs[2] as int - 0x80) == n by {
      SixBitGroups(n);
    }
  }

  lemma DecodeFourBytes(c: char, t: seq<Byte>)
    requires 0x10000 <= c as int
    ensures DecodeFirst(Utf8Char(c) + t) == Some((c, 4))
  {
    var n := c as int;
    var bs := Utf8Char(c) + t;
    assert bs[0] == 0xF0 + n / 262144 && bs[1] == 0x80 + (n / 4096) % 64;
    assert bs[2] == 0x80 + (n / 64) % 64 && bs[3] == 0x80 + n % 64;
    assert (bs[0] as int - 0xF0) * 262144 + (bs[1] as int - 0x80) * 4096
           + (bs[2] as int - 0x80) * 64 + (bs[3] as int - 0x80) == n by {
      SixBitGroups(n);
    }
  }

  /** Decoding the UTF-8 encoding of a text gives the text back. */
  lemma {:induction false} Utf8RoundTrip(s: string)
    ensures DecodeUtf8(Utf8(s)) == Some(s)
  {
    if |s| > 0 {
      var bs := Utf8(s);
      DecodeFirstUtf8Char(s[0], Utf8(s[1..]));
      assert bs[|Utf8Char(s[0])|..] == Utf8(s[1..]);
      Utf8RoundTrip(s[1..]);
      assert s == [s[0]] + s[1..];
    }
  }

  // ---- Percent encoding ----

  function PercentByte(b: Byte): (r: string)
    ensures |r| == 3 && r[0] == '%'
  {
    ['%', HexChar(b / 16), HexChar(b % 16)]
  }

  function Percents(bs: seq<Byte>): string
  {
    if |bs| == 0 then "" else PercentByte(bs[0]) + Percents(bs[1..])
  }

  /** How `quote_plus` writes one character. */
  function QuoteChar(c: char): string
  {
    if c == ' ' then "+" else if IsUnreserved(c) then [c] else Percents(Utf8Char(c))
  }

  predicate IsQuotedChar(c: char)
  {
    IsUnreserved(c) || c == '%' || c == '+'
  }

  lemma PercentsShape(bs: seq<Byte>)
    ensures forall i :: 0 <= i < |Percents(bs)| ==> IsQuotedChar(Percents(bs)[i])
  {
  }

  /** `quote_plus(s)`: only unreserved characters, `%` and `+` come out. */
  function QuotePlus(s: string): (r: string)
    ensures forall i :: 0 <= i < |r| ==> IsQuotedChar(r[i])
    ensures |s| > 0 ==> |r| > 0
  {
    if |s| == 0 then ""
    else
      PercentsShape(Utf8Char(s[0]));
      QuoteChar(s[0]) + QuotePlus(s[1..])
  }

  /** Text of unreserved characters is written as it is. */
  lemma {:induction false} QuotePlusKeepsUnreserved(s: string)
    requires forall i :: 0 <= i < |s| ==> IsUnreserved(s[i])
    ensures QuotePlus(s) == s
  {
    if |s| > 0 {
      QuotePlusKeepsUnreserved(s[1..]);
      assert s == [s[0]] + s[1..];
    }
  }

  /** Percent-decoding to bytes: `%XX` is one byte, `+` is a space, any
      other character stands for its own UTF-8 bytes. */
  function UnquoteBytes(t: string): seq<Byte>
    decreases |t|
  {
    if |t| == 0 then []
    else if t[0] == '%' && |t| >= 3 && HexValue(t[1]).Some? && HexValue(t[2]).Some? then
      [16 * HexValue(t[1]).value + HexValue(t[2]).value] + UnquoteBytes(t[3..])
    else if t[0] == '+' then [0x20] + UnquoteBytes(t[1..])
    else Utf8Char(t[0]) + UnquoteBytes(t[1..])
  }

  /** `unquote_plus`, strict about UTF-8. */
  function UnquotePlus(t: string): Option<string>
  {
    DecodeUtf8(UnquoteBytes(t))
  }

  /** `%XX` decodes to the byte it was written from. */
  lemma PercentByteRoundTrip(b: Byte, t: string)
    ensures UnquoteBytes(PercentByte(b) + t) == [b] + UnquoteBytes(t)
  {
    var s := PercentByte(b) + t;
    HexRoundTrip(b / 16);
    HexRoundTrip(b % 16);
    assert s[0] == '%' && s[1] == HexChar(b / 16) && s[2] == HexChar(b % 16);
    assert s[3..] == t;
  }

  lemma {:induction false} PercentsRoundTrip(bs: seq<Byte>, t: string)
    ensures UnquoteBytes(Percents(bs) + t) == bs + UnquoteBytes(t)
  {
    if |bs| == 0 {
      assert Percents(bs) + t == t;
    } else {
      var rest := Percents(bs[1..]) + t;
      assert Percents(bs) + t == PercentByte(bs[0]) + rest;
      assert UnquoteBytes(PercentByte(bs[0]) + rest) == [bs[0]] + UnquoteBytes(rest) by {
        PercentByteRoundTrip(bs[0], rest);
      }
      assert UnquoteBytes(rest) == bs[1..] + UnquoteBytes(t) by {
        PercentsRoundTrip(bs[1..], t);
      }
      assert bs == [bs[0]] + bs[1..];
    }
  }

  lemma QuoteCharRoundTrip(c: char, t: string)
    ensures UnquoteBytes(QuoteChar(c) + t) == Utf8Char(c) + UnquoteBytes(t)
  {
    var s := QuoteChar(c) + t;
    if c == ' ' {
      assert s[1..] == t;
    } else if IsUnreserved(c) {
      assert s[1..] == t;
    } else {
      PercentsRoundTrip(Utf8Char(c), t);
    }
  }

  lemma {:induction false} UnquoteQuotePlus(s: string)
    ensures UnquoteBytes(QuotePlus(s)) == Utf8(s)
  {
    if |s| > 0 {
      QuoteCharRoundTrip(s[0], QuotePlus(s[1..]));
      UnquoteQuotePlus(s[1..]);
    }
  }

  /** `unquote_plus(quote_plus(s)) == s`. */
  lemma QuotePlusRoundTrip(s: string)
    ensures UnquotePlus(QuotePlus(s)) == Some(s)
  {
    UnquoteQuotePlus(s);
    Utf8RoundTrip(s);
  }
}
