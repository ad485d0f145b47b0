/** Base64 as the engine uses it: `QByteArray::toBase64` with the standard
    alphabet and '=' padding (section 4 of RFC 4648), and the lenient
    `QByteArray::fromBase64` the decoder calls without the abort-on-error
    option, which skips every character outside the alphabet. */
module Base64 {
  import opened Values

  type sextet = x: int | 0 <= x < 64

  /** The character of a 6-bit group in the standard alphabet. */
  function CharOf(d: sextet): char
  {
    if d < 26 then ('A' as int + d) as char
    else if d < 52 then ('a' as int + (d - 26)) as char
    else if d < 62 then ('0' as int + (d - 52)) as char
    else if d == 62 then '+'
    else '/'
  }

  /** The 6-bit group a character stands for, or None outside the alphabet
      (padding '=' included). */
  function DigitOf(c: char): Option<sextet>
  {
    if 'A' <= c <= 'Z' then Some(c as int - 'A' as int)
    else if 'a' <= c <= 'z' then Some(c as int - 'a' as int + 26)
    else if '0' <= c <= '9' then Some(c as int - '0' as int + 52)
    else if c == '+' then Some(62)
    else if c == '/' then Some(63)
    else None
  }

  lemma DigitOfCharOf(d: sextet)
    ensures DigitOf(CharOf(d)) == Some(d)
  {
  }

  /** The four 6-bit groups of three bytes x y z, most significant first. */
  function G0(x: byte): sextet { x / 4 }
  function G1(x: byte, y: byte): sextet { x % 4 * 16 + y / 16 }
  function G2(y: byte, z: byte): sextet { y % 16 * 4 + z / 64 }
  function G3(z: byte): sextet { z % 64 }

  /** The three bytes of four 6-bit groups a b c d. */
  function B0(a: sextet, b: sextet): byte { a * 4 + b / 16 }
  function B1(b: sextet, c: sextet): byte { b % 16 * 16 + c / 4 }
  function B2(c: sextet, d: sextet): byte { c % 4 * 64 + d }

  /** The arithmetic of one group: the 6-bit groups of three bytes give the
      three bytes back. */
  lemma GroupArithmetic(x: byte, y: byte, z: byte)
    ensures B0(G0(x), G1(x, y)) == x
    ensures B1(G1(x, y), G2(y, z)) == y
    ensures B2(G2(y, z), G3(z)) == z
  {
    var q0, x1 := x % 4, y / 16;
    assert x == x / 4 * 4 + q0;
    assert (q0 * 16 + x1) / 16 == q0 && (q0 * 16 + x1) % 16 == x1;
    var q1, x2 := y % 16, z / 64;
    assert y == x1 * 16 + q1;
    assert (q1 * 4 + x2) / 4 == q1 && (q1 * 4 + x2) % 4 == x2;
  }

  /** The 6-bit groups of a byte array: each three bytes give four groups,
      a final one or two bytes give two or three (their low bits zero). */
  function EncodeDigits(b: seq<byte>): (d: seq<sextet>)
    ensures |d| == if |b| % 3 == 0 then |b| / 3 * 4 else |b| / 3 * 4 + |b| % 3 + 1
  {
    if |b| == 0 then []
    else if |b| == 1 then [G0(b[0]), G1(b[0], 0)]
    else if |b| == 2 then [G0(b[0]), G1(b[0], b[1]), G2(b[1], 0)]
    else [G0(b[0]), G1(b[0], b[1]), G2(b[1], b[2]), G3(b[2])] + EncodeDigits(b[3..])
  }

  /** The alphabet characters of a sequence of 6-bit groups. */
  function Chars(d: seq<sextet>): (s: string)
    ensures |s| == |d|
  {
    if d == [] then [] else [CharOf(d[0])] + Chars(d[1..])
  }

  lemma EncodedLength(n: nat)
    ensures (if n % 3 == 0 then n / 3 * 4 else n / 3 * 4 + n % 3 + 1)
            + (if n % 3 == 1 then 2 else if n % 3 == 2 then 1 else 0) == 4 * ((n + 2) / 3)
  {
    var q, r := n / 3, n % 3;
    assert n == 3 * q + r;
    if r == 0 {
      assert (n + 2) / 3 == q;
    } else {
      assert (n + 2) / 3 == q + 1;
    }
  }

  /** `QByteArray::toBase64()`: every three bytes become four characters,
      and the final quantum is padded with '=' to four characters. */
  function Encode(b: seq<byte>): (s: string)
    ensures |s| % 4 == 0 && |s| == 4 * ((|b| + 2) / 3)
  {
    EncodedLength(|b|);
    Chars(EncodeDigits(b)) + (if |b| % 3 == 1 then "==" else if |b| % 3 == 2 then "=" else "")
  }

  /** The 6-bit groups of the alphabet characters of `s`, in order. */
  function Digits(s: string): (d: seq<sextet>)
    ensures |d| <= |s|
  {
    if s == [] then []
    else (match DigitOf(s[0]) case Some(d) => [d] case None => []) + Digits(s[1..])
  }

  /** Bytes from 6-bit groups: four groups give three bytes, a final three
      give two, a final two give one, and a final single group is dropped. */
  function DecodeDigits(d: seq<sextet>): (b: seq<byte>)
    ensures |b| == |d| * 3 / 4
  {
    if |d| < 2 then []
    else if |d| == 2 then [B0(d[0], d[1])]
    else if |d| == 3 then [B0(d[0], d[1]), B1(d[1], d[2])]
    else [B0(d[0], d[1]), B1(d[1], d[2]), B2(d[2], d[3])] + DecodeDigits(d[4..])
  }

  /** `QByteArray::fromBase64(s, Base64Encoding)`: lenient, it never fails. */
  function Decode(s: string): (b: seq<byte>)
    ensures |b| == |Digits(s)| * 3 / 4 && |b| <= |s| * 3 / 4
  {
    DecodeDigits(Digits(s))
  }

  lemma {:induction false} DigitsAppend(s: string, t: string)
    ensures Digits(s + t) == Digits(s) + Digits(t)
  {
    if s == [] {
      assert s + t == t;
    } else {
      assert (s + t)[1..] == s[1..] + t;
      DigitsAppend(s[1..], t);
    }
  }

  lemma {:induction false} DigitsOfChars(d: seq<sextet>)
    ensures Digits(Chars(d)) == d
  {
    if d != [] {
      DigitOfCharOf(d[0]);
      DigitsOfChars(d[1..]);
      assert Chars(d)[1..] == Chars(d[1..]);
    }
  }

  lemma DigitsOfEncode(b: seq<byte>)
    ensures Digits(Encode(b)) == EncodeDigits(b)
  {
    var pad := if |b| % 3 == 1 then "==" else if |b| % 3 == 2 then "=" else "";
    assert Digits("=") == [];
    assert Digits("==") == [] by { assert "=="[1..] == "="; }
    DigitsAppend(Chars(EncodeDigits(b)), pad);
    DigitsOfChars(EncodeDigits(b));
  }

  lemma {:induction false} DecodeEncodeDigits(b: seq<byte>)
    ensures DecodeDigits(EncodeDigits(b)) == b
  {
    if |b| == 0 {
      assert EncodeDigits(b) == [];
    } else if |b| == 1 {
      assert b == [b[0]];
      DecodeEncodeOne(b[0]);
    } else if |b| == 2 {
      assert b == [b[0], b[1]];
      DecodeEncodeTwo(b[0], b[1]);
    } else {
      var g := [G0(b[0]), G1(b[0], b[1]), G2(b[1], b[2]), G3(b[2])];
      assert EncodeDigits(b) == g + EncodeDigits(b[3..]);
      DecodeGroup(g, EncodeDigits(b[3..]));
      GroupArithmetic(b[0], b[1], b[2]);
      DecodeEncodeDigits(b[3..]);
      assert [b[0], b[1], b[2]] + b[3..] == b;
    }
  }

  lemma DecodeEncodeOne(x: byte)
    ensures DecodeDigits(EncodeDigits([x])) == [x]
  {
    var d := EncodeDigits([x]);
    assert d == [G0(x), G1(x, 0)];
    assert DecodeDigits(d) == [B0(d[0], d[1])];
    GroupArithmetic(x, 0, 0);
  }

  lemma DecodeEncodeTwo(x: byte, y: byte)
    ensures DecodeDigits(EncodeDigits([x, y])) == [x, y]
  {
    GroupArithmetic(x, y, 0);
  }

  lemma DecodeGroup(g: seq<sextet>, rest: seq<sextet>)
    requires |g| == 4
    ensures DecodeDigits(g + rest) == [B0(g[0], g[1]), B1(g[1], g[2]), B2(g[2], g[3])] + DecodeDigits(rest)
  {
    assert (g + rest)[4..] == rest;
  }

  /** The decoder undoes the encoder: the Base64 text of any byte array
      decodes back to exactly those bytes. */
  lemma DecodeEncode(b: seq<byte>)
    ensures Decode(Encode(b)) == b
  {
    DigitsOfEncode(b);
    DecodeEncodeDigits(b);
  }

  /** The three bytes 00 FF 10 encode as "AP8Q" and decode back. */
  lemma EncodeExample()
    ensures Encode([0x00, 0xFF, 0x10]) == "AP8Q"
    ensures Decode("AP8Q") == [0x00, 0xFF, 0x10]
  {
    var b: seq<byte> := [0x00, 0xFF, 0x10];
    assert G0(0x00) == 0 && G1(0x00, 0xFF) == 15 && G2(0xFF, 0x10) == 60 && G3(0x10) == 16;
    assert b[3..] == [];
    assert EncodeDigits(b) == [0, 15, 60, 16];
    assert CharOf(0) == 'A' && CharOf(15) == 'P' && CharOf(60) == '8' && CharOf(16) == 'Q';
    assert Chars([16]) == "Q";
    assert Chars([60, 16]) == "8Q";
    assert Chars([15, 60, 16]) == "P8Q";
    assert Chars([0, 15, 60, 16]) == "AP8Q";
    DecodeEncode(b);
  }

  lemma DigitsExample()
    ensures Digits("AP8Q") == [0, 15, 60, 16]
    ensures Digits("P8Q") == [15, 60, 16]
  {
    assert Digits("Q") == [16];
    assert Digits("8Q") == [60, 16] by { assert "8Q"[1..] == "Q"; }
    assert Digits("P8Q") == [15, 60, 16] by { assert "P8Q"[1..] == "8Q"; }
    assert "AP8Q"[1..] == "P8Q";
  }

  /** The decoder is lenient: a character outside the alphabet is skipped
      wherever it stands. */
  lemma SkipAnywhere(s: string, c: char, t: string)
    requires DigitOf(c).None?
    ensures Decode(s + [c] + t) == Decode(s + t)
  {
    DigitsAppend(s + [c], t);
    DigitsAppend(s, [c]);
    DigitsAppend(s, t);
    assert [c][1..] == [];
    assert Digits([c]) == [] + Digits([]);
    assert Digits(s + [c]) == Digits(s);
  }

  /** Two instances: a trailing and an inner '!' are skipped. */
  lemma DecodeSkipsForeignCharacters()
    ensures Decode("AP8Q!") == [0x00, 0xFF, 0x10]
    ensures Decode("A!P8Q") == [0x00, 0xFF, 0x10]
  {
    assert Digits("!") == [];
    assert Digits("A!") == [0] by { assert "A!"[1..] == "!"; }
    DigitsExample();
    assert "AP8Q!" == "AP8Q" + "!";
    DigitsAppend("AP8Q", "!");
    assert "A!P8Q" == "A!" + "P8Q";
    DigitsAppend("A!", "P8Q");
    EncodeExample();
  }

  /** Malformed text is not rejected: it decodes to an empty byte array
      when it holds fewer than two alphabet characters. */
  lemma DecodeMalformedIsEmpty()
    ensures Decode("!!!!") == []
    ensures Decode("A") == []
  {
    assert Digits("!") == [];
    assert Digits("!!") == [] by { assert "!!"[1..] == "!"; }
    assert Digits("!!!") == [] by { assert "!!!"[1..] == "!!"; }
    assert Digits("!!!!") == [] by { assert "!!!!"[1..] == "!!!"; }
    assert Digits("A") == [0];
  }
}
