/** Percent-encoding (section 2.1 of RFC 3986) of text as UTF-8, and Python's `unquote`. */
module PercentCoding {

  type byte = b: int | 0 <= b < 256

  // ---------------------------------------------------------------- UTF-8

  /** The bytes of one character. */
  function Utf8(c: char): (r: seq<byte>)
    ensures |r| > 0
  {
    var n := c as int;
    if n < 0x80 then [n]
    else if n < 0x800 then [0xC0 + n / 0x40, 0x80 + n % 0x40]
    else if n < 0x10000 then [0xE0 + n / 0x1000, 0x80 + n / 0x40 % 0x40, 0x80 + n % 0x40]
    else [0xF0 + n / 0x40000, 0x80 + n / 0x1000 % 0x40, 0x80 + n / 0x40 % 0x40, 0x80 + n % 0x40]
  }

  function Utf8All(s: string): seq<byte>
  {
    if s == "" then [] else Utf8(s[0]) + Utf8All(s[1..])
  }

  predicate Tail(b: byte) { 0x80 <= b < 0xC0 }

  /** The payload of a continuation byte. */
  function Six(b: byte): int { b as int - 0x80 }

  predicate Scalar(n: int) { 0 <= n < 0xD800 || 0xE000 <= n < 0x11_0000 }

  const REPLACEMENT: char := 0xFFFD as char

  /** The character the bytes start with and how many bytes it takes; a malformed byte stands for U+FFFD. */
  function Lead(b: seq<byte>): (char, nat)
    requires b != []
    ensures 1 <= Lead(b).1 <= |b|
  {
    var b0: int := b[0];
    if b0 < 0x80 then (b0 as char, 1)
    else if 0xC2 <= b0 < 0xE0 && |b| >= 2 && Tail(b[1]) then
      var n: int := (b0 - 0xC0) * 0x40 + Six(b[1]);
      (n as char, 2)
    else if 0xE0 <= b0 < 0xF0 && |b| >= 3 && Tail(b[1]) && Tail(b[2]) then
      var n: int := (b0 - 0xE0) * 0x1000 + Six(b[1]) * 0x40 + Six(b[2]);
      if n >= 0x800 && Scalar(n) then (n as char, 3) else (REPLACEMENT, 1)
    else if 0xF0 <= b0 < 0xF5 && |b| >= 4 && Tail(b[1]) && Tail(b[2]) && Tail(b[3]) then
      var n: int := (b0 - 0xF0) * 0x40000 + Six(b[1]) * 0x1000 + Six(b[2]) * 0x40 + Six(b[3]);
      if n >= 0x10000 && Scalar(n) then (n as char, 4) else (REPLACEMENT, 1)
    else (REPLACEMENT, 1)
  }

  /** `bytes.decode("utf-8", "replace")`. */
  function Decode(b: seq<byte>): string {
    if b == [] then "" else [Lead(b).0] + Decode(b[Lead(b).1..])
  }

  lemma LeadOfUtf8(c: char, rest: seq<byte>)
    ensures Lead(Utf8(c) + rest) == (c, |Utf8(c)|)
  {
    var n := c as int;
    if 0x80 <= n < 0x800 {
      assert n == n / 0x40 * 0x40 + n % 0x40;
    } else if 0x800 <= n < 0x10000 {
      assert n / 0x1000 == n / 0x40 / 0x40;
      assert n / 0x40 == n / 0x40 / 0x40 * 0x40 + n / 0x40 % 0x40;
      assert n == n / 0x40 * 0x40 + n % 0x40;
    } else if n >= 0x10000 {
      assert n / 0x1000 == n / 0x40 / 0x40 && n / 0x40000 == n / 0x1000 / 0x40;
      assert n / 0x1000 == n / 0x1000 / 0x40 * 0x40 + n / 0x1000 % 0x40;
      assert n / 0x40 == n / 0x40 / 0x40 * 0x40 + n / 0x40 % 0x40;
      assert n == n / 0x40 * 0x40 + n % 0x40;
    }
  }

  /** The bytes of a character as its payloads make them up, most significant first. */
  lemma Utf8Of(c: char, hi: int, mid: int, lo: int)
    requires 0 <= mid < 0x40 && 0 <= lo < 0x40 && c as int == hi * 0x1000 + mid * 0x40 + lo && c as int >= 0x800
    ensures c as int < 0x10000 ==> Utf8(c) == [0xE0 + hi, 0x80 + mid, 0x80 + lo]
    ensures c as int >= 0x10000 ==> Utf8(c) == [0xF0 + hi / 0x40, 0x80 + hi % 0x40, 0x80 + mid, 0x80 + lo]
  {
    var n := c as int;
    assert n / 0x40 == hi * 0x40 + mid && n % 0x40 == lo;
    assert n / 0x1000 == hi && n / 0x40 % 0x40 == mid;
    assert n / 0x40000 == hi / 0x40;
  }

  /** What is read is the encoding of a character, unless the bytes start with no encoding at all. */
  lemma LeadExact(b: seq<byte>)
    requires b != []
    ensures var (c, n) := Lead(b);
      || (Utf8(c) <= b && n == |Utf8(c)|)
      || (c as int == 0xFFFD && n == 1 && forall d: char :: !(Utf8(d) <= b))
  {
    LeadRead(b);
    if d: char :| Utf8(d) <= b {
      assert b == Utf8(d) + b[|Utf8(d)|..];
      LeadOfUtf8(d, b[|Utf8(d)|..]);
    }
  }

  lemma LeadRead(b: seq<byte>)
    requires b != []
    ensures var (c, n) := Lead(b); (Utf8(c) <= b && n == |Utf8(c)|) || (c as int == 0xFFFD && n == 1)
  {
    var (c, n) := Lead(b);
    if n == 2 {
      assert Utf8(c) == b[..2];
    } else if n == 3 {
      Utf8Of(c, b[0] - 0xE0, Six(b[1]), Six(b[2]));
    } else if n == 4 {
      Utf8Of(c, (b[0] - 0xF0) * 0x40 + Six(b[1]), Six(b[2]), Six(b[3]));
    }
  }

  /** Decoding undoes encoding. */
  lemma {:induction false} DecodeUtf8(s: string)
    ensures Decode(Utf8All(s)) == s
  {
    if s != "" {
      LeadOfUtf8(s[0], Utf8All(s[1..]));
      assert (Utf8(s[0]) + Utf8All(s[1..]))[|Utf8(s[0])|..] == Utf8All(s[1..]);
      DecodeUtf8(s[1..]);
    }
  }

  // ---------------------------------------------------------------- percent-encoding

  predicate Unreserved(c: char) {
    'A' <= c <= 'Z' || 'a' <= c <= 'z' || '0' <= c <= '9' || c == '-' || c == '.' || c == '_' || c == '~'
  }

  function HexDigit(n: nat): char
    requires n < 16
  {
    if n < 10 then ('0' as int + n) as char else ('A' as int + n - 10) as char
  }

  function HexValue(c: char): int {
    if '0' <= c <= '9' then c as int - '0' as int
    else if 'A' <= c <= 'F' then c as int - 'A' as int + 10
    else if 'a' <= c <= 'f' then c as int - 'a' as int + 10
    else -1
  }

  /** Digits count in either case, and nothing else does. */
  lemma HexValueExact(c: char, v: int)
    requires 0 <= v < 16
    ensures HexValue(c) == v <==> c == "0123456789abcdef"[v] || c == "0123456789ABCDEF"[v]
  {
    if v < 10 {
      assert "0123456789abcdef"[v] as int == '0' as int + v && "0123456789ABCDEF"[v] == "0123456789abcdef"[v];
    } else {
      assert "0123456789abcdef"[v] as int == 'a' as int + v - 10 && "0123456789ABCDEF"[v] as int == 'A' as int + v - 10;
    }
  }

  function QuoteByte(b: byte): string
  {
    ['%', HexDigit(b / 16), HexDigit(b % 16)]
  }

  function QuoteBytes(b: seq<byte>): string
  {
    if b == [] then "" else QuoteByte(b[0]) + QuoteBytes(b[1..])
  }

  /** `quote(s, safe="")`. */
  function Quote(s: string): string {
    if s == "" then ""
    else (if Unreserved(s[0]) then [s[0]] else QuoteBytes(Utf8(s[0]))) + Quote(s[1..])
  }

  predicate Ascii(s: string) { forall i :: 0 <= i < |s| ==> (s[i] as int) < 0x80 }

  /** The bytes of an ASCII text with its percent escapes decoded. */
  function PercentBytes(s: string): seq<byte>
    requires Ascii(s)
  {
    if s == "" then []
    else if s[0] == '%' && |s| >= 3 && HexValue(s[1]) >= 0 && HexValue(s[2]) >= 0 then
      [HexValue(s[1]) * 16 + HexValue(s[2])] + PercentBytes(s[3..])
    else [s[0] as int] + PercentBytes(s[1..])
  }

  /** Length of the longest ASCII prefix. */
  function AsciiRun(s: string): (n: nat)
    ensures n <= |s| && Ascii(s[..n])
  {
    if s == "" || (s[0] as int) >= 0x80 then 0
    else
      var n := AsciiRun(s[1..]);
      assert s[..1 + n] == [s[0]] + s[1..][..n];
      1 + n
  }

  /** `unquote(s)`: each run of ASCII is decoded on its own, other characters stay. */
  function Unquote(s: string): string
    decreases |s|
  {
    if s == "" then ""
    else if (s[0] as int) >= 0x80 then [s[0]] + Unquote(s[1..])
    else
      var n := AsciiRun(s);
      Decode(PercentBytes(s[..n])) + Unquote(s[n..])
  }

  /** The text is ASCII and reads as these bytes. */
  predicate Reads(s: string, b: seq<byte>) { Ascii(s) && PercentBytes(s) == b }

  lemma QuoteByteRead(b: byte, rest: string, read: seq<byte>)
    requires Reads(rest, read)
    ensures Reads(QuoteByte(b) + rest, [b] + read)
  {
    var s := QuoteByte(b) + rest;
    assert HexValue(HexDigit(b / 16)) == b / 16 && HexValue(HexDigit(b % 16)) == b % 16;
    assert s[3..] == rest;
  }

  lemma QuoteBytesSplit(b: seq<byte>, rest: string)
    requires b != []
    ensures QuoteBytes(b) + rest == QuoteByte(b[0]) + (QuoteBytes(b[1..]) + rest)
  {
  }

  lemma ReadsAll(b: seq<byte>, rest: string, tail: string)
    requires b != [] && Ascii(rest) && Reads(tail, b[1..] + PercentBytes(rest))
    ensures Reads(QuoteByte(b[0]) + tail, b + PercentBytes(rest))
  {
    QuoteByteRead(b[0], tail, b[1..] + PercentBytes(rest));
    assert [b[0]] + (b[1..] + PercentBytes(rest)) == b + PercentBytes(rest);
  }

  lemma {:induction false} PercentBytesOfQuoteBytes(b: seq<byte>, rest: string)
    requires Ascii(rest)
    ensures Reads(QuoteBytes(b) + rest, b + PercentBytes(rest))
  {
    if b == [] {
      assert QuoteBytes(b) + rest == rest;
    } else {
      PercentBytesOfQuoteBytes(b[1..], rest);
      ReadsAll(b, rest, QuoteBytes(b[1..]) + rest);
      QuoteBytesSplit(b, rest);
    }
  }

  lemma {:induction false} PercentBytesOfQuote(s: string)
    ensures Ascii(Quote(s)) && PercentBytes(Quote(s)) == Utf8All(s)
  {
    if s != "" {
      PercentBytesOfQuote(s[1..]);
      if Unreserved(s[0]) {
        assert Quote(s)[1..] == Quote(s[1..]);
      } else {
        PercentBytesOfQuoteBytes(Utf8(s[0]), Quote(s[1..]));
      }
    }
  }

  predicate QuotedChar(c: char) { Unreserved(c) || c == '%' }

  lemma {:induction false} QuoteBytesChars(b: seq<byte>)
    ensures forall c :: c in QuoteBytes(b) ==> QuotedChar(c)
  {
    if b != [] { QuoteBytesChars(b[1..]); }
  }

  /** Encoded text holds no delimiter of a URL. */
  lemma {:induction false} QuoteChars(s: string)
    ensures forall c :: c in Quote(s) ==> QuotedChar(c)
    ensures s != "" ==> Quote(s) != ""
  {
    if s != "" {
      QuoteChars(s[1..]);
      QuoteBytesChars(Utf8(s[0]));
    }
  }

  lemma {:induction false} AsciiRunWhole(s: string)
    requires Ascii(s)
    ensures AsciiRun(s) == |s|
  {
    if s != "" {
      AsciiRunWhole(s[1..]);
    }
  }

  /** Decoding percent escapes undoes the encoding, for every text. */
  lemma UnquoteQuote(s: string)
    ensures Unquote(Quote(s)) == s
  {
    PercentBytesOfQuote(s);
    AsciiRunWhole(Quote(s));
    DecodeUtf8(s);
    var q := Quote(s);
    assert q[..|q|] == q && q[|q|..] == "";
  }

  lemma {:induction false} DecodeAscii(s: string)
    requires Ascii(s) && '%' !in s
    ensures Decode(PercentBytes(s)) == s
  {
    if s != "" {
      DecodeAscii(s[1..]);
      assert PercentBytes(s)[1..] == PercentBytes(s[1..]);
    }
  }

  /** Text without a percent sign is left alone. */
  lemma {:induction false} UnquotePlain(s: string)
    requires '%' !in s
    ensures Unquote(s) == s
    decreases |s|
  {
    if s != "" {
      if (s[0] as int) >= 0x80 {
        UnquotePlain(s[1..]);
      } else {
        var n := AsciiRun(s);
        DecodeAscii(s[..n]);
        UnquotePlain(s[n..]);
        assert s == s[..n] + s[n..];
      }
    }
  }
}
