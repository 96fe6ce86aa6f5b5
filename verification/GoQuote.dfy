/**
 Go's strconv.Quote on a valid string, and its inverse.  `graphic` is the
 library's table of printable characters beyond ASCII; nothing depends on it.
 */
module GoQuote {

  import opened Options

  function HexDigit(d: int): (c: char)
    requires 0 <= d < 16
    ensures HexValue(c) == d
  {
    if d < 10 then '0' + d as char else 'a' + (d - 10) as char
  }

  // -1 for a character that is no lower-case hexadecimal digit.
  function HexValue(c: char): (d: int)
    ensures -1 <= d < 16
  {
    if '0' <= c <= '9' then (c - '0') as int
    else if 'a' <= c <= 'f' then (c - 'a') as int + 10 else -1
  }

  function Pow16(w: nat): (p: nat)
    ensures p > 0
  {
    if w == 0 then 1 else 16 * Pow16(w - 1)
  }

  function Hex(n: nat, width: nat): (s: string)
    ensures |s| == width
  {
    if width == 0 then "" else Hex(n / 16, width - 1) + [HexDigit(n % 16)]
  }

  function ParseHex(s: string): Option<nat> {
    if s == "" then Some(0)
    else
      var high :- ParseHex(s[..|s| - 1]);
      var low := HexValue(s[|s| - 1]);
      if low == -1 then None else Some(high * 16 + low)
  }

  lemma {:induction false} ParseHexHex(n: nat, width: nat)
    requires n < Pow16(width)
    ensures ParseHex(Hex(n, width)) == Some(n)
  {
    if width > 0 {
      ParseHexHex(n / 16, width - 1);
      assert Hex(n, width)[..|Hex(n, width)| - 1] == Hex(n / 16, width - 1);
    }
  }

  predicate IsPrint(c: char, graphic: char -> bool) {
    if c < '\U{80}' then ' ' <= c <= '~' else graphic(c)
  }

  function QuoteChar(c: char, graphic: char -> bool): string {
    if c == '"' || c == '\\' then ['\\', c]
    else if IsPrint(c, graphic) then [c]
    else if c == '\U{7}' then "\\a"
    else if c == '\U{8}' then "\\b"
    else if c == '\U{c}' then "\\f"
    else if c == '\n' then "\\n"
    else if c == '\r' then "\\r"
    else if c == '\t' then "\\t"
    else if c == '\U{b}' then "\\v"
    else if c < ' ' || c == '\U{7f}' then "\\x" + Hex(c as int, 2)
    else if c < '\U{10000}' then "\\u" + Hex(c as int, 4)
    else "\\U" + Hex(c as int, 8)
  }

  function QuoteBody(s: string, graphic: char -> bool): string {
    if s == "" then "" else QuoteChar(s[0], graphic) + QuoteBody(s[1..], graphic)
  }

  function Quote(s: string, graphic: char -> bool): string {
    "\"" + QuoteBody(s, graphic) + "\""
  }

  // ---------- The inverse ----------

  predicate IsScalar(n: nat) {
    n < 0xD800 || 0xE000 <= n < 0x11_0000
  }

  // A code of `width` hexadecimal digits at the front of s.
  function UnquoteHex(s: string, width: nat): Option<(char, string)> {
    if |s| < width then None
    else
      var n :- ParseHex(s[..width]);
      if IsScalar(n) then Some((n as char, s[width..])) else None
  }

  function Simple(c: char): Option<char> {
    match c
    case 'a' => Some('\U{7}')
    case 'b' => Some('\U{8}')
    case 'f' => Some('\U{c}')
    case 'n' => Some('\n')
    case 'r' => Some('\r')
    case 't' => Some('\t')
    case 'v' => Some('\U{b}')
    case '\\' => Some('\\')
    case '"' => Some('"')
    case _ => None
  }

  // One character of a quoted string.
  function UnquoteChar(s: string): (r: Option<(char, string)>)
    requires s != ""
    ensures r.Some? ==> |r.value.1| < |s|
  {
    if s[0] != '\\' then Some((s[0], s[1..]))
    else if |s| == 1 then None
    else if s[1] == 'x' then UnquoteHex(s[2..], 2)
    else if s[1] == 'u' then UnquoteHex(s[2..], 4)
    else if s[1] == 'U' then UnquoteHex(s[2..], 8)
    else
      var c :- Simple(s[1]);
      Some((c, s[2..]))
  }

  // Reads up to the closing quote; returns the text and what follows it.
  function UnquoteBody(s: string): (r: Option<(string, string)>)
    ensures r.Some? ==> |r.value.1| < |s|
    decreases |s|
  {
    if s == "" then None
    else if s[0] == '"' then Some(("", s[1..]))
    else
      var one :- UnquoteChar(s);
      var rest :- UnquoteBody(one.1);
      Some(([one.0] + rest.0, rest.1))
  }

  lemma HexReads(c: char, width: nat, rest: string)
    requires c as int < Pow16(width)
    ensures UnquoteHex(Hex(c as int, width) + rest, width) == Some((c, rest))
  {
    var s := Hex(c as int, width) + rest;
    ParseHexHex(c as int, width);
    assert s[..width] == Hex(c as int, width) && s[width..] == rest;
  }

  lemma Powers()
    ensures Pow16(2) == 0x100 && Pow16(4) == 0x1_0000 && Pow16(8) == 0x1_0000_0000
  {
    assert Pow16(1) == 16 && Pow16(3) == 0x1000;
    assert Pow16(5) == 0x10_0000 && Pow16(6) == 0x100_0000 && Pow16(7) == 0x1000_0000;
  }

  lemma CharReads(c: char, graphic: char -> bool, rest: string)
    ensures var s := QuoteChar(c, graphic) + rest;
      s != "" && s[0] != '"' && UnquoteChar(s) == Some((c, rest))
  {
    var q := QuoteChar(c, graphic);
    var s := q + rest;
    Powers();
    if |q| == 1 {
      assert s[1..] == rest;
    } else if |q| == 2 {
      assert s[2..] == rest;
    } else {
      var width := |q| - 2;
      assert s[2..] == Hex(c as int, width) + rest;
      HexReads(c, width, rest);
    }
  }

  lemma {:induction false} UnquoteReads(s: string, graphic: char -> bool, rest: string)
    ensures UnquoteBody(QuoteBody(s, graphic) + "\"" + rest) == Some((s, rest))
  {
    var t := QuoteBody(s, graphic) + "\"" + rest;
    if s == "" {
      assert t == "\"" + rest && t[1..] == rest;
    } else {
      var tail := QuoteBody(s[1..], graphic) + "\"" + rest;
      assert t == QuoteChar(s[0], graphic) + tail;
      CharReads(s[0], graphic, tail);
      UnquoteReads(s[1..], graphic, rest);
      assert [s[0]] + s[1..] == s;
    }
  }

  // ---------- The exact text ----------

  const DIGITS: string := "0123456789abcdef"

  // n without its last digits.
  function Shifted(n: nat, places: nat): nat {
    if places == 0 then n else Shifted(n, places - 1) / 16
  }

  // The digit at this place, counted from the right.
  function DigitOf(n: nat, place: nat): char {
    DIGITS[Shifted(n, place) % 16]
  }

  lemma {:induction false} ShiftedOnce(n: nat, places: nat)
    ensures Shifted(n / 16, places) == Shifted(n, places + 1)
  {
    if places > 0 {
      ShiftedOnce(n, places - 1);
    }
  }

  lemma {:induction false} HexDigits(n: nat, width: nat)
    ensures forall i :: 0 <= i < width ==> Hex(n, width)[i] == DigitOf(n, width - 1 - i)
  {
    if width > 0 {
      HexDigits(n / 16, width - 1);
      forall i | 0 <= i < width ensures Hex(n, width)[i] == DigitOf(n, width - 1 - i) {
        if i < width - 1 {
          ShiftedOnce(n, width - 2 - i);
        }
      }
    }
  }

  // A backslash, this letter, and the code in so many digits.
  ghost predicate IsCoded(q: string, letter: char, c: char, width: nat) {
    && |q| == width + 2 && q[0] == '\\' && q[1] == letter
    && forall i :: 0 <= i < width ==> q[2..][i] == DigitOf(c as nat, width - 1 - i)
  }

  const NAMED: map<char, string> := map[
    '"' := "\\\"", '\\' := "\\\\", 7 as char := "\\a", 8 as char := "\\b", 12 as char := "\\f",
    10 as char := "\\n", 13 as char := "\\r", 9 as char := "\\t", 11 as char := "\\v"]

  // How each character is written: the quote, the backslash and seven control characters by name,
  // the rest of ASCII as itself from the space to the tilde and in two digits otherwise, and
  // what is beyond ASCII as itself or in four or eight digits.
  lemma CharExact(c: char, graphic: char -> bool)
    ensures var q, n := QuoteChar(c, graphic), c as nat;
      if c in NAMED then q == NAMED[c]
      else if 0x20 <= n <= 0x7E || (0x80 <= n && graphic(c)) then q == [c]
      else if n < 0x80 then IsCoded(q, 'x', c, 2)
      else if n <= 0xFFFF then IsCoded(q, 'u', c, 4)
      else IsCoded(q, 'U', c, 8)
  {
    HexDigits(c as nat, 2);
    HexDigits(c as nat, 4);
    HexDigits(c as nat, 8);
  }

  // Characters are written one by one.
  lemma {:induction false} QuoteConcat(a: string, b: string, graphic: char -> bool)
    ensures QuoteBody(a + b, graphic) == QuoteBody(a, graphic) + QuoteBody(b, graphic)
  {
    if a == "" {
      assert a + b == b;
    } else {
      assert (a + b)[1..] == a[1..] + b;
      QuoteConcat(a[1..], b, graphic);
    }
  }

  // Text of printing ASCII characters without quote and backslash is written as itself.
  lemma PlainIsItself(s: string, graphic: char -> bool)
    requires forall c :: c in s ==> 0x20 <= c as int <= 0x7E && c as int != 0x22 && c as int != 0x5C
    ensures Quote(s, graphic) == ['"'] + s + ['"']
  {
    PlainBody(s, graphic);
  }

  lemma {:induction false} PlainBody(s: string, graphic: char -> bool)
    requires forall c :: c in s ==> 0x20 <= c as int <= 0x7E && c as int != 0x22 && c as int != 0x5C
    ensures QuoteBody(s, graphic) == s
  {
    if s != "" {
      assert s[0] in s;
      CharExact(s[0], graphic);
      assert forall c :: c in s[1..] ==> c in s;
      PlainBody(s[1..], graphic);
      assert [s[0]] + s[1..] == s;
    }
  }
}
