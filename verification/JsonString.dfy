/** String literals of JSON text as cJSON.c reads and writes them.  Bytes are characters; a text holds no NUL,
    the NUL that ends it in memory is left off. */
module JsonString {
  import opened Options

  const NUL: char := 0 as char
  const BACKSPACE: char := 8 as char
  const FORM_FEED: char := 12 as char

  predicate NulFree(s: string) {
    forall k :: 0 <= k < |s| ==> s[k] != NUL
  }

  /** What strlen sees. */
  function CString(s: string): (r: string)
    ensures NulFree(r) && r <= s
  {
    if s == [] || s[0] == NUL then [] else [s[0]] + CString(s[1..])
  }

  function Prepend(a: string, b: Option<string>): Option<string> {
    match b
    case None => None
    case Some(s) => Some(a + s)
  }

  // ----- printing: print_string_ptr

  function HexDigit(n: nat): char
    requires n < 16
  {
    if n < 10 then '0' + (n as char) else 'a' + ((n - 10) as char)
  }

  predicate Plain(c: char) {
    c > 31 as char && c != '\"' && c != '\\'
  }

  function Escape1(c: char): string {
    if Plain(c) then [c]
    else if c == '\\' then ['\\', '\\']
    else if c == '\"' then ['\\', '\"']
    else if c == BACKSPACE then ['\\', 'b']
    else if c == FORM_FEED then ['\\', 'f']
    else if c == '\n' then ['\\', 'n']
    else if c == '\r' then ['\\', 'r']
    else if c == '\t' then ['\\', 't']
    else ['\\', 'u', '0', '0', HexDigit(c as nat / 16), HexDigit(c as nat % 16)]
  }

  function Escape(s: string): string {
    if s == [] then [] else Escape1(s[0]) + Escape(s[1..])
  }

  /** What the first pass counts. */
  function Extra(c: char): nat {
    if c == '\"' || c == '\\' || c == BACKSPACE || c == FORM_FEED || c == '\n' || c == '\r' || c == '\t' then 1
    else if c < 32 as char then 5
    else 0
  }

  function EscapeCharacters(s: string): nat {
    if s == [] then 0 else Extra(s[0]) + EscapeCharacters(s[1..])
  }

  /** The length found in the first pass is the length of what the second pass writes. */
  lemma {:induction false} FirstPassIsRight(s: string)
    ensures |Escape(s)| == |s| + EscapeCharacters(s)
    ensures EscapeCharacters(s) == 0 ==> Escape(s) == s
  {
    if s != [] {
      FirstPassIsRight(s[1..]);
      assert Extra(s[0]) == 0 ==> s == Escape1(s[0]) + s[1..];
    }
  }

  // ----- parsing: parse_string

  /** First pass: where the closing quote is, given the text behind the opening one. */
  function StringEnd(s: string): Option<nat> {
    if s == [] then None
    else if s[0] == '\"' then Some(0)
    else if s[0] == '\\' then (if |s| == 1 then None else Later(2, StringEnd(s[2..])))
    else Later(1, StringEnd(s[1..]))
  }

  function Later(n: nat, end: Option<nat>): Option<nat> {
    match end
    case None => None
    case Some(e) => Some(e + n)
  }

  lemma {:induction false} EndIsQuote(s: string)
    ensures match StringEnd(s) case Some(e) => e < |s| && s[e] == '\"' case None => true
  {
    if s == [] || s[0] == '\"' {
    } else if s[0] == '\\' {
      if |s| > 1 {
        EndIsQuote(s[2..]);
      }
    } else {
      EndIsQuote(s[1..]);
    }
  }

  function HexValue(c: char): (r: Option<nat>)
    ensures r.Some? ==> r.value < 16
  {
    if '0' <= c <= '9' then Some(c as nat - '0' as nat)
    else if 'A' <= c <= 'F' then Some(10 + c as nat - 'A' as nat)
    else if 'a' <= c <= 'f' then Some(10 + c as nat - 'a' as nat)
    else None
  }

  /** parse_hex4 from the i-th digit on: 0 if one of them is none. */
  function HexFrom(s: string, i: nat, h: nat): (r: nat)
    requires i <= 4 <= |s|
    requires h < (match i case 0 => 1 case 1 => 16 case 2 => 256 case 3 => 4096 case _ => 65536)
    ensures r < 0x10000
    decreases 4 - i
  {
    if i == 4 then h else
    match HexValue(s[i])
    case None => 0
    case Some(d) => HexFrom(s, i + 1, 16 * h + d)
  }

  function Hex4(s: string): (h: nat)
    requires |s| >= 4
    ensures h < 0x10000
  {
    HexFrom(s, 0, 0)
  }

  /** UTF-8: the number of bytes and the mark of the first one. */
  function Form(cp: nat): (nat, nat) {
    if cp < 0x80 then (1, 0)
    else if cp < 0x800 then (2, 0xc0)
    else if cp < 0x10000 then (3, 0xe0)
    else (4, 0xf0)
  }

  /** Without its last n times 6 bits. */
  function Shifted(cp: nat, n: nat): nat {
    if n == 0 then cp else Shifted(cp, n - 1) / 64
  }

  /** The last n bytes. */
  function TailBytes(cp: nat, n: nat): (r: string)
    ensures |r| == n
  {
    if n == 0 then [] else [(0x80 + Shifted(cp, n - 1) % 64) as char] + TailBytes(cp, n - 1)
  }

  lemma FirstByteFits(cp: nat)
    requires cp < 0x110000
    ensures Form(cp).1 + Shifted(cp, Form(cp).0 - 1) < 256
  {
    assert Shifted(cp, 1) == cp / 64;
    assert Shifted(cp, 2) == cp / 64 / 64;
    assert Shifted(cp, 3) == cp / 64 / 64 / 64;
  }

  /** Bits shifted and masked in are sums, since they never overlap. */
  function Utf8(cp: nat): (r: string)
    requires cp < 0x110000
    ensures |r| == Form(cp).0
  {
    FirstByteFits(cp);
    var (length, mark) := Form(cp);
    [(mark + Shifted(cp, length - 1)) as char] + TailBytes(cp, length - 1)
  }

  datatype Literal = Literal(bytes: string, length: nat)

  /** The code point of the literal at the start of a text, and the length of the literal: 6, or 12 for a pair. */
  function CodePoint(s: string): (r: Option<(nat, nat)>)
    ensures r.Some? ==> r.value.0 < 0x110000 && 0 < r.value.1 <= |s|
    ensures r.Some? ==> (r.value.1 == 6 && r.value.0 < 0x10000) || (r.value.1 == 12 && s[6] == '\\' && s[7] == 'u')
  {
    if |s| < 6 then None else
    var first := Hex4(s[2..6]);
    if 0xdc00 <= first <= 0xdfff then None
    else if 0xd800 <= first <= 0xdbff then
      if |s| < 12 || s[6] != '\\' || s[7] != 'u' then None else
      var second := Hex4(s[8..12]);
      if second < 0xdc00 || second > 0xdfff then None
      else Some((0x10000 + first % 1024 * 1024 + second % 1024, 12))
    else Some((first, 6))
  }

  /** utf16_literal_to_utf8, on the text from the backslash on. */
  function Utf16Literal(s: string): (r: Option<Literal>)
    ensures r.Some? ==> 0 < r.value.length <= |s|
    ensures r.Some? ==> |r.value.bytes| <= if r.value.length == 6 then 3 else 4
    ensures r.Some? ==> r.value.length == 6 || (r.value.length == 12 && s[6] == '\\' && s[7] == 'u')
  {
    match CodePoint(s)
    case None => None
    case Some((cp, length)) => Some(Literal(Utf8(cp), length))
  }

  function Unescape1(c: char): Option<char> {
    match c
    case 'b' => Some(BACKSPACE)
    case 'f' => Some(FORM_FEED)
    case 'n' => Some('\n')
    case 'r' => Some('\r')
    case 't' => Some('\t')
    case '\"' => Some('\"')
    case '\\' => Some('\\')
    case '/' => Some('/')
    case _ => None
  }

  /** One turn of the second pass on the text up to the closing quote: what it writes and how far it goes.  A
      backslash right before the closing quote reads the quote. */
  function Unit(s: string): (r: Option<Literal>)
    requires s != []
    ensures r.Some? ==> r.value.length > 0
  {
    if s[0] != '\\' then Some(Literal([s[0]], 1)) else
    var c := if |s| > 1 then s[1] else '\"';
    if c == 'u' then Utf16Literal(s) else
    match Unescape1(c)
    case None => None
    case Some(d) => Some(Literal([d], 2))
  }

  function Behind(s: string, n: nat): (r: string)
    ensures s != [] && n > 0 ==> |r| < |s|
  {
    if n <= |s| then s[n..] else []
  }

  /** Second pass. */
  function Unescape(s: string): Option<string>
    decreases |s|
  {
    if s == [] then Some([]) else
    match Unit(s)
    case None => None
    case Some(u) => Prepend(u.bytes, Unescape(Behind(s, u.length)))
  }

  // ----- round trip

  lemma HexDigitIsRead(n: nat)
    requires n < 16
    ensures HexValue(HexDigit(n)) == Some(n) && HexDigit(n) !in {'\"', '\\'}
  {
  }

  /** Four hexadecimal digits, of either case. */
  lemma DigitsAreRead(s: string, a: nat, b: nat, c: nat, d: nat)
    requires |s| >= 4 && HexValue(s[0]) == Some(a) && HexValue(s[1]) == Some(b)
    requires HexValue(s[2]) == Some(c) && HexValue(s[3]) == Some(d)
    ensures Hex4(s) == 4096 * a + 256 * b + 16 * c + d
  {
    assert HexFrom(s, 0, 0) == HexFrom(s, 1, a);
    assert HexFrom(s, 1, a) == HexFrom(s, 2, 16 * a + b);
    assert HexFrom(s, 2, 16 * a + b) == HexFrom(s, 3, 16 * (16 * a + b) + c);
    assert HexFrom(s, 3, 16 * (16 * a + b) + c) == HexFrom(s, 4, 16 * (16 * (16 * a + b) + c) + d);
  }

  predicate BadDigit(s: string, i: nat)
    requires i < 4 <= |s|
  {
    HexValue(s[i]) == None
  }

  lemma BadDigitIsZero(s: string)
    requires |s| >= 4 && (BadDigit(s, 0) || BadDigit(s, 1) || BadDigit(s, 2) || BadDigit(s, 3))
    ensures Hex4(s) == 0
  {
    if !BadDigit(s, 0) {
      var a := HexValue(s[0]).value;
      assert HexFrom(s, 0, 0) == HexFrom(s, 1, a);
      if !BadDigit(s, 1) {
        var b := HexValue(s[1]).value;
        assert HexFrom(s, 1, a) == HexFrom(s, 2, 16 * a + b);
        if !BadDigit(s, 2) {
          assert HexFrom(s, 2, 16 * a + b) == HexFrom(s, 3, 16 * (16 * a + b) + HexValue(s[2]).value);
        }
      }
    }
  }

  lemma ZeroDigit(c: char)
    ensures HexValue(c) == Some(0) <==> c == '0'
  {
  }

  /** Zero is what is read of four zeros, and of whatever is no hexadecimal number. */
  lemma HexIsZero(s: string)
    requires |s| >= 4
    ensures Hex4(s) == 0 <==>
            (s[0] == s[1] == s[2] == s[3] == '0')
            || BadDigit(s, 0) || BadDigit(s, 1) || BadDigit(s, 2) || BadDigit(s, 3)
  {
    if BadDigit(s, 0) || BadDigit(s, 1) || BadDigit(s, 2) || BadDigit(s, 3) {
      BadDigitIsZero(s);
    } else {
      DigitsAreRead(s, HexValue(s[0]).value, HexValue(s[1]).value, HexValue(s[2]).value, HexValue(s[3]).value);
      ZeroDigit(s[0]);
      ZeroDigit(s[1]);
      ZeroDigit(s[2]);
      ZeroDigit(s[3]);
    }
  }

  lemma HexOfByte(n: nat, s: string)
    requires n < 256 && s == ['0', '0', HexDigit(n / 16), HexDigit(n % 16)]
    ensures Hex4(s) == n
  {
    HexDigitIsRead(n / 16);
    HexDigitIsRead(n % 16);
    DigitsAreRead(s, 0, 0, n / 16, n % 16);
  }

  lemma AsciiIsOneByte(c: char)
    requires c as nat < 0x80
    ensures Utf8(c as nat) == [c]
  {
    assert Shifted(c as nat, 0) == c as nat && TailBytes(c as nat, 0) == [];
  }

  lemma UnitOfEscape(c: char, rest: string)
    requires c != NUL
    ensures Unit(Escape1(c) + rest) == Some(Literal([c], |Escape1(c)|))
  {
    var e := Escape1(c);
    if |e| == 6 {
      HexOfByte(c as nat, e[2..6]);
      assert (e + rest)[2..6] == e[2..6];
      AsciiIsOneByte(c);
    }
  }

  /** What print_string_ptr writes between the quotes, parse_string reads back. */
  lemma {:induction false} UnescapeOfEscape(s: string)
    requires NulFree(s)
    ensures Unescape(Escape(s)) == Some(s)
  {
    if s != [] {
      UnitOfEscape(s[0], Escape(s[1..]));
      assert Behind(Escape(s), |Escape1(s[0])|) == Escape(s[1..]);
      UnescapeOfEscape(s[1..]);
      assert [s[0]] + s[1..] == s;
    }
  }

  /** A surrogate is accepted exactly as the first half of a pair of a high and a low one. */
  lemma SurrogatesMustPair(s: string, h: nat)
    requires |s| >= 6 && h == Hex4(s[2..6])
    ensures 0xdc00 <= h <= 0xdfff ==> Utf16Literal(s) == None
    ensures 0xd800 <= h <= 0xdbff ==>
              (Utf16Literal(s).Some? <==>
                |s| >= 12 && s[6] == '\\' && s[7] == 'u' && 0xdc00 <= Hex4(s[8..12]) <= 0xdfff)
    ensures 0xd800 <= h <= 0xdbff && Utf16Literal(s).Some? ==> Utf16Literal(s).value.length == 12
    ensures h < 0xd800 || 0xdfff < h ==> Utf16Literal(s).Some? && Utf16Literal(s).value.length == 6
  {
  }

  lemma ShortEscape(c: char, rest: string)
    requires c != 'u'
    ensures Unescape(['\\', c] + rest)
         == match Unescape1(c) case None => None case Some(d) => Prepend([d], Unescape(rest))
  {
    var s := ['\\', c] + rest;
    assert s[0] == '\\' && s[1] == c && Behind(s, 2) == rest;
  }

  lemma NamesOfEscapes(names: string, codes: seq<nat>, c: char)
    requires names == "\"\\/bfnrt" && codes == [0x22, 0x5c, 0x2f, 0x08, 0x0c, 0x0a, 0x0d, 0x09]
    ensures forall i :: 0 <= i < 8 && c == names[i] ==> Unescape1(c) == Some(codes[i] as char)
    ensures c !in names ==> Unescape1(c) == None
  {
  }

  /** An escape of two characters stands for the character that section 7 of RFC 8259 says; there are no others. */
  lemma EscapesAreStandard(names: string, codes: seq<nat>, c: char, rest: string)
    requires names == "\"\\/bfnrt" && codes == [0x22, 0x5c, 0x2f, 0x08, 0x0c, 0x0a, 0x0d, 0x09] && c != 'u'
    ensures forall i :: 0 <= i < 8 && c == names[i] ==>
              Unescape(['\\', c] + rest) == Prepend([codes[i] as char], Unescape(rest))
    ensures c !in names ==> Unescape(['\\', c] + rest) == None
  {
    ShortEscape(c, rest);
    NamesOfEscapes(names, codes, c);
  }

  /** The code c is written as a digit, of the lower case. */
  predicate WrittenAs(d: char, n: nat) {
    n < 16 && d == "0123456789abcdef"[n]
  }

  /** Everything but quotes, backslashes and control characters is printed as it is, / too; the others by the escapes of
      two characters as far as there are any, and else by four digits. */
  lemma EscapesAreShort(c: char, e: string)
    requires e == Escape1(c)
    ensures c as nat >= 0x20 && c as nat != 0x22 && c as nat != 0x5c ==> e == [c]
    ensures c as nat in {0x22, 0x5c, 0x08, 0x0c, 0x0a, 0x0d, 0x09} ==> |e| == 2 && Unit(e) == Some(Literal([c], 2))
    ensures c as nat < 0x20 && c as nat !in {0x08, 0x0c, 0x0a, 0x0d, 0x09} ==>
              && |e| == 6 && e[..4] == "\\u00"
              && WrittenAs(e[4], c as nat / 16) && WrittenAs(e[5], c as nat % 16)
  {
  }

  lemma {:induction false} EndBehindOrdinary(s: string, rest: string)
    requires forall k :: 0 <= k < |s| ==> s[k] !in {'\"', '\\'}
    ensures StringEnd(s + rest) == Later(|s|, StringEnd(rest))
  {
    if s == [] {
      assert s + rest == rest;
    } else {
      assert (s + rest)[1..] == s[1..] + rest;
      EndBehindOrdinary(s[1..], rest);
    }
  }

  lemma EndBehindEscape1(c: char, rest: string)
    ensures StringEnd(Escape1(c) + rest) == Later(|Escape1(c)|, StringEnd(rest))
  {
    var e := Escape1(c);
    if |e| == 1 {
      EndBehindOrdinary(e, rest);
    } else {
      assert (e + rest)[2..] == e[2..] + rest;
      if |e| == 6 {
        HexDigitIsRead(c as nat / 16);
        HexDigitIsRead(c as nat % 16);
      }
      EndBehindOrdinary(e[2..], rest);
    }
  }

  lemma {:induction false} EndBehindEscape(s: string, rest: string)
    ensures StringEnd(Escape(s) + ['\"'] + rest) == Some(|Escape(s)|)
  {
    if s == [] {
      assert (Escape(s) + ['\"'] + rest)[0] == '\"';
    } else {
      EndBehindEscape1(s[0], Escape(s[1..]) + ['\"'] + rest);
      assert Escape(s) + ['\"'] + rest == Escape1(s[0]) + (Escape(s[1..]) + ['\"'] + rest);
      EndBehindEscape(s[1..], rest);
    }
  }

  // ----- code points

  predicate Scalar(cp: nat) {
    cp < 0x110000 && !(0xd800 <= cp < 0xe000)
  }

  function HexText(n: nat): (r: string)
    requires n < 0x10000
    ensures |r| == 4
  {
    [HexDigit(n / 4096), HexDigit(n / 256 % 16), HexDigit(n / 16 % 16), HexDigit(n % 16)]
  }

  /** The literal of a code point: one escape, or a surrogate pair of them (section 7 of RFC 8259). */
  function Utf16Text(cp: nat): string
    requires Scalar(cp)
  {
    if cp < 0x10000 then ['\\', 'u'] + HexText(cp)
    else ['\\', 'u'] + HexText(0xd800 + (cp - 0x10000) / 1024) + ['\\', 'u'] + HexText(0xdc00 + (cp - 0x10000) % 1024)
  }

  lemma FourDigits(n: nat, q: nat, r: nat)
    requires q == n / 16 && r == q / 16
    ensures n == 16 * q + n % 16 && q == 16 * r + q % 16 && n / 256 == r
    ensures n / 4096 == r / 16 && n / 256 % 16 == r % 16 && n / 16 % 16 == q % 16
  {
  }

  lemma HexTextIsRead(n: nat)
    requires n < 0x10000
    ensures Hex4(HexText(n)) == n
  {
    FourDigits(n, n / 16, n / 16 / 16);
    HexDigitIsRead(n / 4096);
    HexDigitIsRead(n / 256 % 16);
    HexDigitIsRead(n / 16 % 16);
    HexDigitIsRead(n % 16);
    DigitsAreRead(HexText(n), n / 4096, n / 256 % 16, n / 16 % 16, n % 16);
  }

  lemma PairIsRead(s: string, high: nat, low: nat)
    requires |s| >= 12 && s[6] == '\\' && s[7] == 'u' && 0xd800 <= high < 0xdc00 && 0xdc00 <= low < 0xe000
    requires s[2..6] == HexText(high) && s[8..12] == HexText(low)
    ensures Utf16Literal(s) == Some(Literal(Utf8(0x10000 + high % 1024 * 1024 + low % 1024), 12))
  {
    HexTextIsRead(high);
    HexTextIsRead(low);
  }

  lemma HalvesOfCodePoint(x: nat, high: nat, low: nat)
    requires x < 0x100000 && high == 0xd800 + x / 1024 && low == 0xdc00 + x % 1024
    ensures 0xd800 <= high < 0xdc00 && 0xdc00 <= low < 0xe000 && high % 1024 * 1024 + low % 1024 == x
  {
  }

  /** An escape whose digits are none is read as a NUL. */
  lemma BadEscapeIsNul(s: string)
    requires |s| >= 6 && Hex4(s[2..6]) == 0
    ensures Utf16Literal(s) == Some(Literal([NUL], 6))
  {
    AsciiIsOneByte(NUL);
  }

  /** Every code point's literal is turned into its UTF-8 bytes. */
  lemma LiteralOfCodePoint(cp: nat, rest: string)
    requires Scalar(cp)
    ensures Utf16Literal(Utf16Text(cp) + rest) == Some(Literal(Utf8(cp), |Utf16Text(cp)|))
  {
    var s := Utf16Text(cp) + rest;
    if cp < 0x10000 {
      assert s[2..6] == HexText(cp);
      HexTextIsRead(cp);
    } else {
      var high, low := 0xd800 + (cp - 0x10000) / 1024, 0xdc00 + (cp - 0x10000) % 1024;
      HalvesOfCodePoint(cp - 0x10000, high, low);
      assert s[2..6] == HexText(high) && s[8..12] == HexText(low);
      PairIsRead(s, high, low);
    }
  }

  /** Section 3 of RFC 3629: the number of bytes and the bits of each, the first byte telling the number. */
  function DecodeUtf8(s: string): Option<nat> {
    if |s| == 1 && s[0] as nat < 0x80 then Some(s[0] as nat)
    else if |s| == 2 && 0xc0 <= s[0] as nat < 0xe0 && Tail(s[1]) then Some(s[0] as nat % 32 * 64 + s[1] as nat % 64)
    else if |s| == 3 && 0xe0 <= s[0] as nat < 0xf0 && Tail(s[1]) && Tail(s[2]) then
      Some(s[0] as nat % 16 * 4096 + s[1] as nat % 64 * 64 + s[2] as nat % 64)
    else if |s| == 4 && 0xf0 <= s[0] as nat < 0xf8 && Tail(s[1]) && Tail(s[2]) && Tail(s[3]) then
      Some(s[0] as nat % 8 * 262144 + s[1] as nat % 64 * 4096 + s[2] as nat % 64 * 64 + s[3] as nat % 64)
    else None
  }

  predicate Tail(c: char) {
    0x80 <= c as nat < 0xc0
  }

  /** The bytes written for a code point are its UTF-8 form. */
  lemma Utf8IsDecoded(cp: nat)
    requires cp < 0x110000
    ensures DecodeUtf8(Utf8(cp)) == Some(cp)
  {
    var q, r, t := cp / 64, cp / 64 / 64, cp / 64 / 64 / 64;
    assert Shifted(cp, 1) == q;
    assert Shifted(cp, 2) == r;
    assert Shifted(cp, 3) == t;
    assert TailBytes(cp, 1) == [(0x80 + cp % 64) as char];
    assert TailBytes(cp, 2) == [(0x80 + q % 64) as char, (0x80 + cp % 64) as char];
    assert TailBytes(cp, 3) == [(0x80 + r % 64) as char, (0x80 + q % 64) as char, (0x80 + cp % 64) as char];
    assert cp == 64 * q + cp % 64 && q == 64 * r + q % 64 && r == 64 * t + r % 64;
    if cp < 0x80 {
    } else if cp < 0x800 {
      TwoBytes(q, cp % 64, Utf8(cp));
    } else if cp < 0x10000 {
      ThreeBytes(r, q % 64, cp % 64, Utf8(cp));
    } else {
      FourBytes(t, r % 64, q % 64, cp % 64, Utf8(cp));
    }
  }

  lemma TwoBytes(a: nat, b: nat, s: string)
    requires a < 32 && b < 64 && s == [(0xc0 + a) as char, (0x80 + b) as char]
    ensures DecodeUtf8(s) == Some(a * 64 + b)
  {
  }

  lemma ThreeBytes(a: nat, b: nat, c: nat, s: string)
    requires a < 16 && b < 64 && c < 64 && s == [(0xe0 + a) as char, (0x80 + b) as char, (0x80 + c) as char]
    ensures DecodeUtf8(s) == Some(a * 4096 + b * 64 + c)
  {
  }

  lemma FourBytes(a: nat, b: nat, c: nat, d: nat, s: string)
    requires a < 8 && b < 64 && c < 64 && d < 64
    requires s == [(0xf0 + a) as char, (0x80 + b) as char, (0x80 + c) as char, (0x80 + d) as char]
    ensures DecodeUtf8(s) == Some(a * 262144 + b * 4096 + c * 64 + d)
  {
  }

  // ----- the size of the output

  /** Escapes of two and single characters as the first pass counts them: the allocation estimate, less the
      place for the NUL and one. */
  function Units(s: string): nat {
    if s == [] then 0
    else if s[0] == '\\' && |s| > 1 then 1 + Units(s[2..])
    else 1 + Units(s[1..])
  }

  /** All that the second pass ever writes, whether it succeeds or not. */
  function Written(s: string): nat
    decreases |s|
  {
    if s == [] then 0 else
    match Unit(s)
    case None => 0
    case Some(u) => |u.bytes| + Written(Behind(s, u.length))
  }

  lemma {:induction false} WrittenIsAll(s: string)
    ensures match Unescape(s) case Some(out) => |out| == Written(s) case None => true
    decreases |s|
  {
    if s != [] && Unit(s).Some? {
      WrittenIsAll(Behind(s, Unit(s).value.length));
    }
  }

  /** Four characters hold two units at least, three if the last of them only begins one. */
  lemma FourCharacters(s: string)
    requires |s| >= 4
    ensures Units(s) >= 2 + Units(s[4..]) || (|s| > 4 && Units(s) >= 3 + Units(s[5..]))
  {
    assert s[1..][1..] == s[2..] && s[2..][1..] == s[3..] && s[3..][1..] == s[4..];
    assert s[1..][2..] == s[3..] && s[2..][2..] == s[4..];
    if |s| > 4 {
      assert s[3..][2..] == s[5..];
    }
  }

  /** The second pass never writes more than the first pass has counted, though the two may fall out of step
      where a bad hexadecimal number hides a backslash. */
  lemma {:induction false} EstimateIsEnough(s: string)
    ensures Written(s) <= Units(s)
    ensures s != [] ==> Written(s) <= 1 + Units(s[1..])
    decreases |s|
  {
    if s != [] && Unit(s).Some? {
      var u := Unit(s).value;
      EstimateIsEnough(Behind(s, u.length));
      if u.length >= 6 {
        HexLiteralFits(s);
      } else if u.length == 2 && |s| >= 2 {
        assert s[1..][1..] == s[2..];
        if |s| > 2 {
          assert s[2..][1..] == s[3..] && s[1..][2..] == s[3..];
        }
      }
    }
  }

  lemma HexLiteralFits(s: string)
    requires s != [] && Unit(s).Some? && Unit(s).value.length >= 6
    requires var r := Behind(s, Unit(s).value.length);
             Written(r) <= Units(r) && (r != [] ==> Written(r) <= 1 + Units(r[1..]))
    ensures Written(s) <= 1 + Units(s[2..])
    ensures Units(s) == 1 + Units(s[2..]) && Units(s[1..]) == 1 + Units(s[2..])
  {
    assert s[1..][1..] == s[2..];
    var t := s[2..];
    FourCharacters(t);
    assert t[4..] == s[6..];
    if |t| > 4 {
      assert t[5..] == s[7..] && s[6..][1..] == s[7..];
    }
    if Unit(s).value.length == 12 {
      assert s[6..][2..] == s[8..] && s[7..][1..] == s[8..];
      FourCharacters(s[8..]);
      assert s[8..][4..] == s[12..];
      if |s| > 12 {
        assert s[8..][5..] == s[13..] && s[12..][1..] == s[13..];
      }
    }
  }
}
