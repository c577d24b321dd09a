/**
 * `urllib.parse.quote(s)` with its default `safe='/'`, as the Play Store
 * search URL uses it: the string is encoded as UTF-8 and every byte outside
 * the unreserved set `A-Z a-z 0-9 _ . - ~` and '/' becomes `%XX` with
 * upper-case hexadecimal digits (section 2.1 of RFC 3986).
 */
module UrlQuote {

  type Byte = x: int | 0 <= x < 256

  /** The UTF-8 encoding of one code point (Dafny's `char` is a Unicode scalar value). */
  function Utf8Char(c: char): (r: seq<Byte>)
    ensures 1 <= |r| <= 4
    ensures (c as int < 0x80) <==> |r| == 1
    ensures |r| == 1 ==> r[0] == c as int
  {
    var n := c as int;
    if n < 0x80 then [n]
    else if n < 0x800 then [0xC0 + n / 64, 0x80 + n % 64]
    else if n < 0x10000 then [0xE0 + n / 4096, 0x80 + (n / 64) % 64, 0x80 + n % 64]
    else [0xF0 + n / 262144, 0x80 + (n / 4096) % 64, 0x80 + (n / 64) % 64, 0x80 + n % 64]
  }

  /** `s.encode("utf-8")` */
  function Utf8(s: string): (r: seq<Byte>)
    ensures |r| >= |s|
  {
    if s == [] then [] else Utf8Char(s[0]) + Utf8(s[1..])
  }

  lemma {:induction false} Utf8Append(a: string, b: string)
    ensures Utf8(a + b) == Utf8(a) + Utf8(b)
  {
    if a != [] {
      assert a + b != [] && (a + b)[0] == a[0];
      assert (a + b)[1..] == a[1..] + b;
      Utf8Append(a[1..], b);
      calc {
        Utf8(a + b);
        Utf8Char(a[0]) + Utf8(a[1..] + b);
        Utf8Char(a[0]) + (Utf8(a[1..]) + Utf8(b));
        (Utf8Char(a[0]) + Utf8(a[1..])) + Utf8(b);
      }
    } else {
      assert a + b == b;
    }
  }

  /** The bytes `quote` leaves as they are. */
  predicate IsSafe(b: int)
  {
    ('A' as int <= b <= 'Z' as int) || ('a' as int <= b <= 'z' as int) || ('0' as int <= b <= '9' as int)
    || b == '_' as int || b == '.' as int || b == '-' as int || b == '~' as int || b == '/' as int
  }

  function HexDigit(d: int): (c: char)
    requires 0 <= d < 16
    ensures IsHexDigit(c) && HexValue(c) == d
  {
    if d < 10 then ('0' as int + d) as char else ('A' as int + d - 10) as char
  }

  predicate IsHexDigit(c: char)
  {
    ('0' <= c <= '9') || ('A' <= c <= 'F') || ('a' <= c <= 'f')
  }

  function HexValue(c: char): (d: int)
    requires IsHexDigit(c)
    ensures 0 <= d < 16
  {
    if '0' <= c <= '9' then c as int - '0' as int
    else if 'A' <= c <= 'F' then c as int - 'A' as int + 10
    else c as int - 'a' as int + 10
  }

  /** One byte as `quote` writes it. */
  function QuoteByte(b: Byte): (r: string)
    ensures IsSafe(b) ==> r == [b as char]
    ensures !IsSafe(b) ==>
      |r| == 3 && r[0] == '%' && IsHexDigit(r[1]) && IsHexDigit(r[2]) && HexValue(r[1]) * 16 + HexValue(r[2]) == b
  {
    if IsSafe(b) then [b as char] else ['%', HexDigit(b / 16), HexDigit(b % 16)]
  }

  function QuoteBytes(bs: seq<Byte>): string
  {
    if bs == [] then [] else QuoteByte(bs[0]) + QuoteBytes(bs[1..])
  }

  /** `urllib.parse.quote(s)` */
  function Quote(s: string): string
  {
    QuoteBytes(Utf8(s))
  }

  /** What `quote` may output: the unreserved characters, '/' and percent escapes. */
  predicate IsQuoted(r: string)
  {
    forall i :: 0 <= i < |r| ==> IsSafe(r[i] as int) || r[i] == '%' || IsHexDigit(r[i])
  }

  /** Quoted text holds none of the characters that delimit a query string. */
  lemma QuotedHasNoDelimiters(r: string)
    requires IsQuoted(r)
    ensures forall i :: 0 <= i < |r| ==> r[i] !in {'&', '=', '#', '?', '"', ' '}
  {
    forall i | 0 <= i < |r|
      ensures r[i] !in {'&', '=', '#', '?', '"', ' '}
    {
      assert IsSafe(r[i] as int) || r[i] == '%' || IsHexDigit(r[i]);
    }
  }

  lemma {:induction false} QuoteBytesIsQuoted(bs: seq<Byte>)
    ensures IsQuoted(QuoteBytes(bs))
  {
    if bs != [] {
      QuoteBytesIsQuoted(bs[1..]);
    }
  }

  lemma {:induction false} QuoteBytesAppend(a: seq<Byte>, b: seq<Byte>)
    ensures QuoteBytes(a + b) == QuoteBytes(a) + QuoteBytes(b)
  {
    if a != [] {
      assert a + b != [] && (a + b)[0] == a[0];
      assert (a + b)[1..] == a[1..] + b;
      QuoteBytesAppend(a[1..], b);
      calc {
        QuoteBytes(a + b);
        QuoteByte(a[0]) + QuoteBytes(a[1..] + b);
        QuoteByte(a[0]) + (QuoteBytes(a[1..]) + QuoteBytes(b));
        (QuoteByte(a[0]) + QuoteBytes(a[1..])) + QuoteBytes(b);
      }
    } else {
      assert a + b == b;
    }
  }

  lemma QuoteAppend(a: string, b: string)
    ensures Quote(a + b) == Quote(a) + Quote(b)
  {
    Utf8Append(a, b);
    QuoteBytesAppend(Utf8(a), Utf8(b));
  }

  /** The percent-decoding of a quoted string back to bytes: `unquote_to_bytes`. */
  function Unquote(r: string): seq<Byte>
  {
    if r == [] then []
    else if r[0] == '%' && |r| >= 3 && IsHexDigit(r[1]) && IsHexDigit(r[2]) then
      [HexValue(r[1]) * 16 + HexValue(r[2])] + Unquote(r[3..])
    else Utf8Char(r[0]) + Unquote(r[1..])
  }

  lemma UnquoteQuoteByte(b: Byte, rest: string)
    ensures Unquote(QuoteByte(b) + rest) == [b] + Unquote(rest)
  {
    var q := QuoteByte(b) + rest;
    if IsSafe(b) {
      assert q[1..] == rest;
    } else {
      assert q[3..] == rest;
    }
  }

  lemma {:induction false} UnquoteQuoteBytes(bs: seq<Byte>)
    ensures Unquote(QuoteBytes(bs)) == bs
  {
    if bs != [] {
      UnquoteQuoteBytes(bs[1..]);
      UnquoteQuoteByte(bs[0], QuoteBytes(bs[1..]));
      assert bs == [bs[0]] + bs[1..];
    }
  }

  /** Decoding the percent escapes of `quote(s)` gives back the UTF-8 bytes of `s`. */
  lemma UnquoteQuote(s: string)
    ensures Unquote(Quote(s)) == Utf8(s)
    ensures IsQuoted(Quote(s))
  {
    UnquoteQuoteBytes(Utf8(s));
    QuoteBytesIsQuoted(Utf8(s));
  }

  /** `quote` is injective: different strings never give the same URL component. */
  lemma QuoteInjective(a: string, b: string)
    requires Quote(a) == Quote(b)
    ensures a == b
  {
    UnquoteQuote(a);
    UnquoteQuote(b);
    Utf8Injective(a, b);
  }

  lemma {:induction false} Utf8Injective(a: string, b: string)
    requires Utf8(a) == Utf8(b)
    ensures a == b
  {
    if a != [] && b != [] {
      var ea, eb := Utf8Char(a[0]), Utf8Char(b[0]);
      Utf8CharLead(a[0]);
      Utf8CharLead(b[0]);
      assert Utf8(a) == ea + Utf8(a[1..]);
      assert Utf8(b) == eb + Utf8(b[1..]);
      assert |ea| == |eb| by {
        assert Utf8(a)[0] == ea[0] && Utf8(b)[0] == eb[0];
      }
      assert ea == Utf8(a)[..|ea|] && eb == Utf8(b)[..|eb|];
      Utf8CharInjective(a[0], b[0]);
      assert Utf8(a[1..]) == Utf8(a)[|ea|..] == Utf8(b)[|eb|..] == Utf8(b[1..]);
      Utf8Injective(a[1..], b[1..]);
      assert a == [a[0]] + a[1..] && b == [b[0]] + b[1..];
    }
  }

  /** The lead byte of a character's encoding tells its length. */
  lemma Utf8CharLead(c: char)
    ensures var r := Utf8Char(c);
      && (|r| == 1 <==> r[0] < 0x80)
      && (|r| == 2 <==> 0xC0 <= r[0] < 0xE0)
      && (|r| == 3 <==> 0xE0 <= r[0] < 0xF0)
      && (|r| == 4 <==> 0xF0 <= r[0])
  {
  }

  lemma Utf8CharInjective(c: char, d: char)
    requires Utf8Char(c) == Utf8Char(d)
    ensures c == d
  {
    Utf8CharValue(c);
    Utf8CharValue(d);
  }

  /** The code point a well-formed UTF-8 sequence of one character encodes. */
  function Utf8Value(r: seq<Byte>): int
    requires 1 <= |r| <= 4
  {
    var b0, b1 := r[0] as int, if |r| > 1 then r[1] as int - 0x80 else 0;
    var b2, b3 := if |r| > 2 then r[2] as int - 0x80 else 0, if |r| > 3 then r[3] as int - 0x80 else 0;
    if |r| == 1 then b0
    else if |r| == 2 then (b0 - 0xC0) * 64 + b1
    else if |r| == 3 then ((b0 - 0xE0) * 64 + b1) * 64 + b2
    else (((b0 - 0xF0) * 64 + b1) * 64 + b2) * 64 + b3
  }

  lemma Utf8CharValue(c: char)
    ensures Utf8Value(Utf8Char(c)) == c as int
  {
    var n := c as int;
    var q1, r1 := n / 64, n % 64;
    assert n == q1 * 64 + r1;
    var q2, r2 := q1 / 64, q1 % 64;
    assert q1 == q2 * 64 + r2;
    var q3, r3 := q2 / 64, q2 % 64;
    assert q2 == q3 * 64 + r3;
    DivSplit(n, q1, q2);
    DivSplit2(n, q1, q2, q3);
  }

  lemma DivSplit(n: nat, q1: nat, q2: nat)
    requires q1 == n / 64 && q2 == q1 / 64
    ensures n / 4096 == q2
  {
  }

  lemma DivSplit2(n: nat, q1: nat, q2: nat, q3: nat)
    requires q1 == n / 64 && q2 == q1 / 64 && q3 == q2 / 64
    ensures n / 262144 == q3
  {
  }

  /** Strings of unreserved characters pass through unchanged. */
  lemma {:induction false} QuoteSafe(s: string)
    requires forall i :: 0 <= i < |s| ==> IsSafe(s[i] as int)
    ensures Quote(s) == s
  {
    if s != [] {
      QuoteSafe(s[1..]);
      assert Quote(s) == QuoteBytes(Utf8Char(s[0]) + Utf8(s[1..]));
      QuoteBytesAppend(Utf8Char(s[0]), Utf8(s[1..]));
      assert QuoteBytes([s[0] as int]) == [s[0]];
    }
  }

  /** The Play Store query: the title in double quotes, the quotes escaped as `%22`. */
  lemma QuoteQuoted(t: string)
    ensures Quote("\"" + t + "\"") == "%22" + Quote(t) + "%22"
  {
    QuoteAppend("\"" + t, "\"");
    QuoteAppend("\"", t);
    assert Quote("\"") == "%22" by {
      assert Utf8("\"") == [34];
      assert QuoteBytes([34]) == QuoteByte(34) + QuoteBytes([]);
    }
  }
}
