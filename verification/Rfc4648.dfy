/** The encoder against section 5 of RFC 4648, stated on the bits of the whole text. */
module Rfc4648 {
  import opened Base64Url

  /** Table 2 of RFC 4648. */
  const UPPER := "ABCDEFGHIJKLMNOPQRSTUVWXYZ"
  const LOWER := "abcdefghijklmnopqrstuvwxyz"
  const DIGITS := "0123456789"

  /** The letter the table gives a value. */
  predicate IsLetter(c: char, v: int) {
    || (0 <= v < 26 && c == UPPER[v])
    || (26 <= v < 52 && c == LOWER[v - 26])
    || (52 <= v < 62 && c == DIGITS[v - 52])
    || (v == 62 && c == '-')
    || (v == 63 && c == '_')
  }

  lemma Upper(v: int)
    requires 0 <= v < 26
    ensures UPPER[v] as int == 'A' as int + v
  {
    assert v == 0 || v == 1 || v == 2 || v == 3 || v == 4 || v == 5 || v == 6 || v == 7 || v == 8 ||
           v == 9 || v == 10 || v == 11 || v == 12 || v == 13 || v == 14 || v == 15 || v == 16 || v == 17 ||
           v == 18 || v == 19 || v == 20 || v == 21 || v == 22 || v == 23 || v == 24 || v == 25;
  }

  lemma Lower(v: int)
    requires 0 <= v < 26
    ensures LOWER[v] as int == 'a' as int + v
  {
    assert v == 0 || v == 1 || v == 2 || v == 3 || v == 4 || v == 5 || v == 6 || v == 7 || v == 8 ||
           v == 9 || v == 10 || v == 11 || v == 12 || v == 13 || v == 14 || v == 15 || v == 16 || v == 17 ||
           v == 18 || v == 19 || v == 20 || v == 21 || v == 22 || v == 23 || v == 24 || v == 25;
  }

  lemma Numeral(v: int)
    requires 0 <= v < 10
    ensures DIGITS[v] as int == '0' as int + v
  {
    assert v == 0 || v == 1 || v == 2 || v == 3 || v == 4 || v == 5 || v == 6 || v == 7 || v == 8 || v == 9;
  }

  lemma LetterOf(v: Sextet)
    ensures IsLetter(ToChar(v), v)
  {
    if v < 26 {
      Upper(v);
    } else if v < 52 {
      Lower(v - 26);
    } else if v < 62 {
      Numeral(v - 52);
    }
  }

  function ByteOrZero(bytes: seq<Byte>, i: nat): Byte { if i < |bytes| then bytes[i] else 0 }

  /** Three bytes from place i on as one number, the first most significant, zeros past the end. */
  function Group(bytes: seq<Byte>, i: nat): nat {
    ByteOrZero(bytes, i) * 65536 + ByteOrZero(bytes, i + 1) * 256 + ByteOrZero(bytes, i + 2)
  }

  /** The n-th of the four sextets of a group, the first most significant. */
  function Digit(group: nat, n: int): int {
    (if n == 0 then group / 262144 else if n == 1 then group / 4096 else if n == 2 then group / 64 else group) % 64
  }

  /** The letter at place p stands for the p-th six bits. */
  predicate IsLetterAt(c: char, bytes: seq<Byte>, p: nat) {
    IsLetter(c, Digit(Group(bytes, p / 4 * 3), p % 4))
  }

  /** As many letters as the bits need, each the table's letter for its six bits. */
  ghost predicate IsEncoding(t: string, bytes: seq<Byte>) {
    && |t| == (|bytes| * 4 + 2) / 3
    && forall p :: 0 <= p < |t| ==> IsLetterAt(t[p], bytes, p)
  }

  lemma Digits(a: Byte, b: Byte, c: Byte)
    ensures var g := a * 65536 + b * 256 + c;
      && Digit(g, 0) == a / 4 && Digit(g, 1) == a % 4 * 16 + b / 16
      && Digit(g, 2) == b % 16 * 4 + c / 64 && Digit(g, 3) == c % 64
  {
    var g := a * 65536 + b * 256 + c;
    assert g / 262144 == a / 4;
    assert g / 4096 == a * 16 + b / 16;
    assert g / 64 == (a * 16 + b / 16) * 64 + (b % 16 * 4 + c / 64);
    assert a * 16 + b / 16 == a / 4 * 64 + (a % 4 * 16 + b / 16);
  }

  /** The letters of the first digits of a group. */
  lemma UnitLetters(bytes: seq<Byte>, n: nat, s0: Sextet, s1: Sextet, s2: Sextet, s3: Sextet)
    requires n <= 4 && Digit(Group(bytes, 0), 0) == s0 && Digit(Group(bytes, 0), 1) == s1
    requires Digit(Group(bytes, 0), 2) == s2 && Digit(Group(bytes, 0), 3) == s3
    ensures var t := Letters([s0, s1, s2, s3][..n]);
      |t| == n && forall p :: 0 <= p < n ==> IsLetterAt(t[p], bytes, p)
  {
    var s := [s0, s1, s2, s3];
    var t := Letters(s[..n]);
    forall p | 0 <= p < n ensures IsLetterAt(t[p], bytes, p) {
      LetterOf(s[p]);
      assert p / 4 == 0 && p % 4 == p && t[p] == ToChar(s[p]);
    }
  }

  lemma One(a: Byte)
    ensures IsEncoding(Encode1(a), [a])
  {
    Digits(a, 0, 0);
    UnitLetters([a], 2, a / 4, a % 4 * 16, 0, 0);
    assert [a / 4, a % 4 * 16, 0, 0][..2] == [a / 4, a % 4 * 16];
  }

  lemma Two(a: Byte, b: Byte)
    ensures IsEncoding(Encode2(a, b), [a, b])
  {
    Digits(a, b, 0);
    UnitLetters([a, b], 3, a / 4, a % 4 * 16 + b / 16, b % 16 * 4, 0);
    assert [a / 4, a % 4 * 16 + b / 16, b % 16 * 4, 0][..3] == [a / 4, a % 4 * 16 + b / 16, b % 16 * 4];
  }

  lemma Three(a: Byte, b: Byte, c: Byte)
    ensures IsEncoding(Encode3(a, b, c), [a, b, c])
  {
    Digits(a, b, c);
    var s := [a / 4, a % 4 * 16 + b / 16, b % 16 * 4 + c / 64, c % 64];
    UnitLetters([a, b, c], 4, s[0], s[1], s[2], s[3]);
    assert s[..4] == s;
  }

  /** The encoder is the unpadded encoding of section 5 of RFC 4648. */
  lemma {:induction false} EncodeIsStandard(bytes: seq<Byte>)
    ensures IsEncoding(Encode(bytes), bytes)
  {
    if |bytes| == 1 {
      One(bytes[0]);
      assert bytes == [bytes[0]];
    } else if |bytes| == 2 {
      Two(bytes[0], bytes[1]);
      assert bytes == [bytes[0], bytes[1]];
    } else if |bytes| >= 3 {
      Three(bytes[0], bytes[1], bytes[2]);
      EncodeIsStandard(bytes[3..]);
      assert bytes[..3] == [bytes[0], bytes[1], bytes[2]];
      EncodingAppends(bytes, Encode3(bytes[0], bytes[1], bytes[2]), Encode(bytes[3..]));
    }
  }

  lemma EncodingAppends(bytes: seq<Byte>, first: string, rest: string)
    requires |bytes| >= 3 && IsEncoding(first, bytes[..3]) && IsEncoding(rest, bytes[3..])
    ensures IsEncoding(first + rest, bytes)
  {
    var t := first + rest;
    forall p | 0 <= p < |t| ensures IsLetterAt(t[p], bytes, p) {
      if p < 4 {
        assert IsLetterAt(first[p], bytes[..3], p);
        assert p / 4 == 0 && Group(bytes[..3], 0) == Group(bytes, 0);
      } else {
        assert IsLetterAt(rest[p - 4], bytes[3..], p - 4);
        LaterGroup(bytes, p);
      }
    }
  }

  lemma LaterGroup(bytes: seq<Byte>, p: nat)
    requires |bytes| >= 3 && p >= 4
    ensures (p - 4) % 4 == p % 4 && Group(bytes[3..], (p - 4) / 4 * 3) == Group(bytes, p / 4 * 3)
  {
    assert p / 4 == (p - 4) / 4 + 1;
  }
}
