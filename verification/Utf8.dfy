/** UTF-8, as a terminal hands text to a shell (section 3 of RFC 3629). */
module Utf8 {
  import opened Base64

  function EncodeChar(c: char): (bs: seq<Byte>)
    ensures 1 <= |bs| <= 4 && (|bs| == 1 <==> c as int < 0x80)
  {
    var n := c as int;
    if n < 0x80 then [n]
    else if n < 0x800 then [0xC0 + n / 0x40, 0x80 + n % 0x40]
    else if n < 0x10000 then [0xE0 + n / 0x1000, 0x80 + n / 0x40 % 0x40, 0x80 + n % 0x40]
    else [0xF0 + n / 0x40000, 0x80 + n / 0x1000 % 0x40, 0x80 + n / 0x40 % 0x40, 0x80 + n % 0x40]
  }

  // The code point in bytes from the second on: six bits each, from 0x80 to 0xBF.
  function TailBits(bs: seq<Byte>, high: int): int {
    if bs == [] then high else TailBits(bs[..|bs| - 1], high) * 0x40 + (bs[|bs| - 1] as int - 0x80)
  }

  // What the first byte contributes, above the mark that tells the number of bytes.
  function FirstBits(bs: seq<Byte>): int
    requires bs != []
  {
    bs[0] as int - (if |bs| == 1 then 0 else if |bs| == 2 then 0xC0 else if |bs| == 3 then 0xE0 else 0xF0)
  }

  // In the fewest bytes that hold it, the code point can be read off the bits.
  lemma EncodedBits(c: char)
    ensures var bs, n := EncodeChar(c), c as int;
      && |bs| == (if n <= 0x7F then 1 else if n <= 0x7FF then 2 else if n <= 0xFFFF then 3 else 4)
      && TailBits(bs[1..], FirstBits(bs)) == n
      && 0 <= FirstBits(bs) && bs[0] < 0xF8 && forall i :: 1 <= i < |bs| ==> 0x80 <= bs[i] < 0xC0
  {
    var bs, n := EncodeChar(c), c as int;
    var high := FirstBits(bs);
    assert TailBits([], high) == high;
    Sixes(n);
    if |bs| >= 2 {
      OneMoreBits([], bs[1], high);
      assert [] + [bs[1]] == bs[1..2];
    }
    if |bs| >= 3 {
      OneMoreBits(bs[1..2], bs[2], high);
      assert bs[1..2] + [bs[2]] == bs[1..3];
    }
    if |bs| == 4 {
      OneMoreBits(bs[1..3], bs[3], high);
      assert bs[1..3] + [bs[3]] == bs[1..4];
    }
    assert bs[1..] == bs[1..|bs|];
  }

  lemma Sixes(n: int)
    requires n >= 0
    ensures n / 0x40 * 0x40 + n % 0x40 == n
    ensures n / 0x1000 * 0x40 + n / 0x40 % 0x40 == n / 0x40
    ensures n / 0x40000 * 0x40 + n / 0x1000 % 0x40 == n / 0x1000
  {
  }

  lemma OneMoreBits(bs: seq<Byte>, b: Byte, high: int)
    ensures TailBits(bs + [b], high) == TailBits(bs, high) * 0x40 + (b as int - 0x80)
  {
    assert (bs + [b])[..|bs + [b]| - 1] == bs;
  }

  function EncodeText(s: string): seq<Byte> {
    if s == "" then [] else EncodeChar(s[0]) + EncodeText(s[1..])
  }

  predicate AllAscii(bs: seq<Byte>) {
    forall i :: 0 <= i < |bs| ==> bs[i] < 0x80
  }

  // One character per byte, sent as UTF-8, is those bytes exactly when all are ASCII, and
  // longer otherwise.
  lemma {:induction false} BinaryTextIff(bs: seq<Byte>)
    ensures |EncodeText(Binary(bs))| >= |bs|
    ensures EncodeText(Binary(bs)) == bs <==> AllAscii(bs)
    ensures |EncodeText(Binary(bs))| == |bs| ==> AllAscii(bs)
  {
    if bs != [] {
      var b, rest := bs[0], bs[1..];
      BinaryTextIff(rest);
      BinaryCons(b, rest);
      assert bs == [b] + rest;
      if AllAscii(bs) {
        assert forall i :: 0 <= i < |rest| ==> rest[i] == bs[i + 1];
        assert EncodeChar(b as char) == [b];
      } else if b < 0x80 {
        var i :| 0 <= i < |bs| && bs[i] >= 0x80;
        assert rest[i - 1] == bs[i];
      }
    }
  }

  lemma AccentedE()
    ensures EncodeText(Binary([0xC3, 0xA9])) == [0xC3, 0x83, 0xC2, 0xA9]
  {
    var e: seq<Byte> := [0xA9];
    BinaryCons(0xC3, e);
    BinaryCons(0xA9, []);
    assert [0xC3 as Byte] + e == [0xC3, 0xA9] && [0xA9 as Byte] + [] == e;
    assert EncodeChar(0xC3 as char) == [0xC3, 0x83] && EncodeChar(0xA9 as char) == [0xC2, 0xA9];
    assert EncodeText(Binary([])) == [];
  }

  lemma BinaryCons(b: Byte, rest: seq<Byte>)
    ensures EncodeText(Binary([b] + rest)) == EncodeChar(b as char) + EncodeText(Binary(rest))
  {
    assert Binary([b] + rest)[1..] == Binary(rest);
  }
}
