/**
 The base64 recogniser of the cURL generator.  `Encode` is the canonical padded
 encoding of RFC 4648, section 4; `Atob` is the browser's forgiving decoder,
 which ignores stray bits, and `Btoa` the browser's encoder.
 */
module Base64 {

  type Byte = b: int | 0 <= b < 256
  type Sextet = d: int | 0 <= d < 64

  // Table 1 of RFC 4648.
  function Digit(d: Sextet): (c: char)
    ensures IsDigit(c) && Value(c) == d
  {
    if d < 26 then 'A' + d as char
    else if d < 52 then 'a' + (d - 26) as char
    else if d < 62 then '0' + (d - 52) as char
    else if d == 62 then '+' else '/'
  }

  predicate IsDigit(c: char) {
    'A' <= c <= 'Z' || 'a' <= c <= 'z' || '0' <= c <= '9' || c == '+' || c == '/'
  }

  function Value(c: char): Sextet
    requires IsDigit(c)
  {
    if 'A' <= c <= 'Z' then (c - 'A') as int
    else if 'a' <= c <= 'z' then (c - 'a') as int + 26
    else if '0' <= c <= '9' then (c - '0') as int + 52
    else if c == '+' then 62 else 63
  }

  // The upper-case letters, the lower-case letters, the figures, the plus sign and the slash.
  lemma DigitsInOrder(d: Sextet)
    ensures Digit(0) == 'A' && Digit(25) == 'Z' && Digit(26) == 'a' && Digit(51) == 'z'
    ensures Digit(52) == '0' && Digit(61) == '9' && Digit(62) == '+' && Digit(63) == '/'
    ensures d !in {25, 51, 61, 62, 63} ==> Digit(d + 1) as int == Digit(d) as int + 1
  {
  }

  predicate AllDigits(s: string) {
    forall i :: 0 <= i < |s| ==> IsDigit(s[i])
  }

  // ---------- RFC 4648, section 4 ----------

  function EncodeDigits(bs: seq<Byte>): (s: string)
    ensures AllDigits(s) && |s| == 4 * (|bs| / 3) + (if |bs| % 3 == 0 then 0 else |bs| % 3 + 1)
    ensures |s| % 4 != 1
  {
    if |bs| == 0 then ""
    else if |bs| == 1 then [Digit(bs[0] / 4), Digit(bs[0] % 4 * 16)]
    else if |bs| == 2 then [Digit(bs[0] / 4), Digit(bs[0] % 4 * 16 + bs[1] / 16), Digit(bs[1] % 16 * 4)]
    else Quad(bs[0], bs[1], bs[2]) + EncodeDigits(bs[3..])
  }

  // Three bytes as four digits.
  function Quad(a: Byte, b: Byte, c: Byte): (s: string)
    ensures |s| == 4 && AllDigits(s)
  {
    [Digit(a / 4), Digit(a % 4 * 16 + b / 16), Digit(b % 16 * 4 + c / 64), Digit(c % 64)]
  }

  function Padding(n: nat): string {
    if n % 3 == 0 then "" else if n % 3 == 1 then "==" else "="
  }

  lemma PaddingFills(n: nat, digits: nat)
    requires digits == 4 * (n / 3) + (if n % 3 == 0 then 0 else n % 3 + 1)
    ensures (digits + |Padding(n)|) % 4 == 0
    ensures digits == 0 <==> n == 0
  {
    assert digits + |Padding(n)| == 4 * (n / 3 + if n % 3 == 0 then 0 else 1);
  }

  function Encode(bs: seq<Byte>): (s: string)
    ensures |s| % 4 == 0 && (s == "" <==> bs == [])
  {
    var digits := EncodeDigits(bs);
    PaddingFills(|bs|, |digits|);
    digits + Padding(|bs|)
  }

  // ---------- The browser's functions ----------

  // Leftover bits of the last digit are dropped.
  function DecodeDigits(t: string): seq<Byte>
    requires AllDigits(t) && |t| % 4 != 1
  {
    if |t| == 0 then []
    else if |t| == 2 then [Value(t[0]) * 4 + Value(t[1]) / 16]
    else if |t| == 3 then [Value(t[0]) * 4 + Value(t[1]) / 16, Value(t[1]) % 16 * 16 + Value(t[2]) / 4]
    else Triple(t[..4]) + DecodeDigits(t[4..])
  }

  // Four digits as three bytes.
  function Triple(t: string): (bs: seq<Byte>)
    requires |t| == 4 && AllDigits(t)
    ensures |bs| == 3
  {
    [Value(t[0]) * 4 + Value(t[1]) / 16, Value(t[1]) % 16 * 16 + Value(t[2]) / 4, Value(t[2]) % 4 * 64 + Value(t[3])]
  }

  datatype Decoded = Bytes(value: seq<Byte>) | Invalid

  function StripPad(s: string): string {
    if s != "" && s[|s| - 1] == '=' then s[..|s| - 1] else s
  }

  // atob, for input without white space: InvalidCharacterError is Invalid.
  function Atob(s: string): Decoded {
    var t := if |s| % 4 == 0 then StripPad(StripPad(s)) else s;
    if |t| % 4 == 1 || !AllDigits(t) then Invalid else Bytes(DecodeDigits(t))
  }

  function Btoa(bs: seq<Byte>): string {
    Encode(bs)
  }

  // ---------- The recogniser ----------

  // The pattern: base64 digits, then at most two padding characters.
  predicate MatchesPattern(s: string) {
    PaddedWith(s, 0) || PaddedWith(s, 1) || PaddedWith(s, 2)
  }

  predicate PaddedWith(s: string, n: nat) {
    n <= |s| && AllDigits(s[..|s| - n]) && forall i :: |s| - n <= i < |s| ==> s[i] == '='
  }

  predicate IsBase64(s: string) {
    s != "" && MatchesPattern(s) && |s| % 4 == 0 && Atob(s).Bytes? && Btoa(Atob(s).value) == s
  }

  // A binary string: one character per byte.
  function Binary(bs: seq<Byte>): string {
    seq(|bs|, i requires 0 <= i < |bs| => bs[i] as char)
  }

  function DecodeBase64(s: string): string {
    if Atob(s).Bytes? then Binary(Atob(s).value) else s
  }

  // ---------- Results ----------

  lemma TripleOfQuad(a: Byte, b: Byte, c: Byte)
    ensures Triple(Quad(a, b, c)) == [a, b, c]
  {
    Regain(a, b, c);
  }

  lemma DecodeGroup(a: Byte, b: Byte, c: Byte, rest: string)
    requires AllDigits(rest) && |rest| % 4 != 1
    ensures var s := Quad(a, b, c) + rest;
      AllDigits(s) && |s| % 4 != 1 && DecodeDigits(s) == [a, b, c] + DecodeDigits(rest)
  {
    FourMore(Quad(a, b, c), rest);
    TripleOfQuad(a, b, c);
  }

  lemma FourMore(quad: string, rest: string)
    requires |quad| == 4 && AllDigits(quad) && AllDigits(rest) && |rest| % 4 != 1
    ensures var s := quad + rest;
      AllDigits(s) && |s| % 4 != 1 && |s| >= 4 && s[..4] == quad && s[4..] == rest
  {
  }

  lemma DecodePair(a: Byte, b: Byte)
    ensures var s := [Digit(a / 4), Digit(a % 4 * 16 + b / 16), Digit(b % 16 * 4)];
      AllDigits(s) && DecodeDigits(s) == [a, b]
  {
    Regain(a, b, 0);
  }

  lemma DecodeSingle(a: Byte)
    ensures var s := [Digit(a / 4), Digit(a % 4 * 16)];
      AllDigits(s) && DecodeDigits(s) == [a]
  {
    Regain(a, 0, 0);
  }

  lemma Regain(a: Byte, b: Byte, c: Byte)
    ensures a / 4 * 4 + (a % 4 * 16 + b / 16) / 16 == a
    ensures (a % 4 * 16 + b / 16) % 16 * 16 + (b % 16 * 4 + c / 64) / 4 == b
    ensures (b % 16 * 4 + c / 64) % 4 * 64 + c % 64 == c
  {
  }

  lemma DecodeLonger(bs: seq<Byte>)
    requires |bs| >= 3 && DecodeDigits(EncodeDigits(bs[3..])) == bs[3..]
    ensures DecodeDigits(EncodeDigits(bs)) == bs
  {
    DecodeGroup(bs[0], bs[1], bs[2], EncodeDigits(bs[3..]));
    FirstThree(bs);
  }

  lemma FirstThree(bs: seq<Byte>)
    requires |bs| >= 3
    ensures bs == [bs[0], bs[1], bs[2]] + bs[3..]
  {
  }

  lemma {:induction false} DecodeEncodedDigits(bs: seq<Byte>)
    ensures DecodeDigits(EncodeDigits(bs)) == bs
  {
    if |bs| >= 3 {
      DecodeEncodedDigits(bs[3..]);
      DecodeLonger(bs);
    } else if |bs| == 2 {
      DecodePair(bs[0], bs[1]);
      assert bs == [bs[0], bs[1]];
    } else if |bs| == 1 {
      DecodeSingle(bs[0]);
      assert bs == [bs[0]];
    }
  }

  lemma StripPadding(d: string, n: nat)
    requires AllDigits(d)
    ensures StripPad(StripPad(d + Padding(n))) == d && PaddedWith(d + Padding(n), |Padding(n)|)
  {
    var s := d + Padding(n);
    assert s[..|d|] == d;
    assert d != "" ==> IsDigit(d[|d| - 1]);
    if n % 3 == 0 {
      assert s == d;
    } else if n % 3 == 1 {
      assert StripPad(s) == d + "=" && (d + "=")[..|d|] == d;
    } else {
      assert StripPad(s) == d;
    }
  }

  lemma EncodedIsWellFormed(bs: seq<Byte>)
    ensures MatchesPattern(Encode(bs)) && StripPad(StripPad(Encode(bs))) == EncodeDigits(bs)
  {
    StripPadding(EncodeDigits(bs), |bs|);
  }

  lemma RoundTrip(bs: seq<Byte>)
    ensures Atob(Encode(bs)) == Bytes(bs) && DecodeBase64(Encode(bs)) == Binary(bs)
  {
    EncodedIsWellFormed(bs);
    DecodeEncodedDigits(bs);
    var s, t := Encode(bs), EncodeDigits(bs);
    assert |s| % 4 == 0 && StripPad(StripPad(s)) == t;
    assert Atob(s) == Bytes(DecodeDigits(t));
  }

  // Three bytes are four digits of six bits each, the high bits first.
  lemma GroupBits(a: Byte, b: Byte, c: Byte)
    ensures var s := Encode([a, b, c]);
      |s| == 4 && AllDigits(s)
      && Value(s[0]) * 0x40000 + Value(s[1]) * 0x1000 + Value(s[2]) * 0x40 + Value(s[3]) == a * 0x10000 + b * 0x100 + c
  {
    assert Encode([a, b, c]) == Quad(a, b, c) by {
      assert [a, b, c][3..] == [];
      assert Quad(a, b, c) + "" + "" == Quad(a, b, c);
    }
  }

  // One or two bytes left over are filled up with zero bits, and the group with padding.
  lemma LastBits(a: Byte, b: Byte)
    ensures var s := Encode([a]);
      |s| == 4 && AllDigits(s[..2]) && s[2..] == "==" && Value(s[0]) * 0x40 + Value(s[1]) == a * 0x10
    ensures var s := Encode([a, b]);
      |s| == 4 && AllDigits(s[..3]) && s[3..] == "="
      && Value(s[0]) * 0x1000 + Value(s[1]) * 0x40 + Value(s[2]) == (a * 0x100 + b) * 4
  {
  }

  // A byte string is encoded group by group.
  lemma EncodeByGroups(bs: seq<Byte>)
    requires |bs| >= 3
    ensures Encode(bs) == Encode(bs[..3]) + Encode(bs[3..])
  {
    var head := bs[..3];
    assert head[3..] == [] && Encode(head) == Quad(bs[0], bs[1], bs[2]) by {
      assert Quad(bs[0], bs[1], bs[2]) + "" + "" == Quad(bs[0], bs[1], bs[2]);
    }
    assert Quad(bs[0], bs[1], bs[2]) + EncodeDigits(bs[3..]) + Padding(|bs|)
        == Quad(bs[0], bs[1], bs[2]) + (EncodeDigits(bs[3..]) + Padding(|bs| - 3));
  }

  // The recogniser accepts exactly the canonical encodings of non-empty byte strings.
  lemma RecognisesCanonical(s: string)
    ensures IsBase64(s) <==> exists bs :: bs != [] && s == Encode(bs)
  {
    if bs :| bs != [] && s == Encode(bs) {
      EncodedIsWellFormed(bs);
      RoundTrip(bs);
    }
    if IsBase64(s) {
      assert s == Encode(Atob(s).value);
    }
  }
}
