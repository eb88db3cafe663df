/**
 * Unpadded base64url, RFC 4648 section 5, with the leniency of the JDK decoder the source delegates
 * to: a final unit may carry its padding or omit it, and its unused low bits are ignored.
 */
module Base64Url {
  import opened Options

  type Byte = x: int | 0 <= x < 256
  type Sextet = x: int | 0 <= x < 64

  function ToChar(v: Sextet): char {
    if v < 26 then ('A' as int + v) as char
    else if v < 52 then ('a' as int + v - 26) as char
    else if v < 62 then ('0' as int + v - 52) as char
    else if v == 62 then '-'
    else '_'
  }

  /** The sextet a character stands for, or -1 outside the alphabet. */
  function FromChar(c: char): (v: int)
    ensures -1 <= v < 64
  {
    if 'A' <= c <= 'Z' then c as int - 'A' as int
    else if 'a' <= c <= 'z' then c as int - 'a' as int + 26
    else if '0' <= c <= '9' then c as int - '0' as int + 52
    else if c == '-' then 62
    else if c == '_' then 63
    else -1
  }

  predicate InAlphabet(c: char) { FromChar(c) >= 0 }

  predicate AllInAlphabet(t: string) { forall i :: 0 <= i < |t| ==> InAlphabet(t[i]) }

  lemma CharInverse(v: Sextet)
    ensures FromChar(ToChar(v)) == v
  {
  }

  lemma SextetInverse(c: char)
    requires InAlphabet(c)
    ensures ToChar(FromChar(c)) == c
  {
  }

  function Letters(sextets: seq<Sextet>): (t: string)
    ensures |t| == |sextets|
  {
    seq(|sextets|, i requires 0 <= i < |sextets| => ToChar(sextets[i]))
  }

  function Sextets(t: string): (sextets: seq<Sextet>)
    requires AllInAlphabet(t)
    ensures |sextets| == |t|
  {
    seq(|t|, i requires 0 <= i < |t| => FromChar(t[i]))
  }

  lemma LettersInverse(sextets: seq<Sextet>)
    ensures AllInAlphabet(Letters(sextets)) && Sextets(Letters(sextets)) == sextets
  {
    forall i | 0 <= i < |sextets| ensures FromChar(Letters(sextets)[i]) == sextets[i] {
      CharInverse(sextets[i]);
    }
  }

  lemma SextetsLetters(t: string)
    requires AllInAlphabet(t)
    ensures Letters(Sextets(t)) == t
  {
    forall i | 0 <= i < |t| ensures Letters(Sextets(t))[i] == t[i] {
      SextetInverse(t[i]);
    }
  }

  function Encode3(a: Byte, b: Byte, c: Byte): string {
    Letters([a / 4, a % 4 * 16 + b / 16, b % 16 * 4 + c / 64, c % 64])
  }

  function Encode2(a: Byte, b: Byte): string {
    Letters([a / 4, a % 4 * 16 + b / 16, b % 16 * 4])
  }

  function Encode1(a: Byte): string {
    Letters([a / 4, a % 4 * 16])
  }

  function Encode(bytes: seq<Byte>): string {
    if |bytes| == 0 then ""
    else if |bytes| == 1 then Encode1(bytes[0])
    else if |bytes| == 2 then Encode2(bytes[0], bytes[1])
    else Encode3(bytes[0], bytes[1], bytes[2]) + Encode(bytes[3..])
  }

  function Byte0(s: Sextet, t: Sextet): Byte { s * 4 + t / 16 }

  function Byte1(t: Sextet, u: Sextet): Byte { t % 16 * 16 + u / 4 }

  function Byte2(u: Sextet, v: Sextet): Byte { u % 4 * 64 + v }

  /** The last unit: two or three characters, bare or padded to four; anything else is an error. */
  function DecodeLast(t: string): Option<seq<Byte>> {
    var bare := if |t| == 4 && t[2] == '=' && t[3] == '=' then t[..2]
                else if |t| == 4 && t[3] == '=' then t[..3]
                else t;
    if !AllInAlphabet(bare) then None
    else
      var s := Sextets(bare);
      if |s| == 2 then Some([Byte0(s[0], s[1])])
      else if |s| == 3 then Some([Byte0(s[0], s[1]), Byte1(s[1], s[2])])
      else None
  }

  function DecodeUnit(t: string): seq<Byte>
    requires |t| == 4 && AllInAlphabet(t)
  {
    var s := Sextets(t);
    [Byte0(s[0], s[1]), Byte1(s[1], s[2]), Byte2(s[2], s[3])]
  }

  function Decode(t: string): Option<seq<Byte>> {
    if t == "" then Some([])
    else if |t| >= 4 && AllInAlphabet(t[..4]) then
      match Decode(t[4..])
      case None => None
      case Some(rest) => Some(DecodeUnit(t[..4]) + rest)
    else DecodeLast(t)
  }

  /** Three bytes, cut into four sextets and put together again. */
  lemma BytesInverse(a: Byte, b: Byte, c: Byte)
    ensures Byte0(a / 4, a % 4 * 16 + b / 16) == a
    ensures Byte1(a % 4 * 16 + b / 16, b % 16 * 4 + c / 64) == b
    ensures Byte2(b % 16 * 4 + c / 64, c % 64) == c
  {
    assert (a % 4 * 16 + b / 16) / 16 == a % 4 && (a % 4 * 16 + b / 16) % 16 == b / 16;
    assert (b % 16 * 4 + c / 64) / 4 == b % 16 && (b % 16 * 4 + c / 64) % 4 == c / 64;
  }

  /** Four sextets, put together to three bytes and cut again. */
  lemma SextetsInverse(s: Sextet, t: Sextet, u: Sextet, v: Sextet)
    ensures var a, b, c := Byte0(s, t), Byte1(t, u), Byte2(u, v);
      a / 4 == s && a % 4 * 16 + b / 16 == t && b % 16 * 4 + c / 64 == u && c % 64 == v
  {
    assert (s * 4 + t / 16) % 4 == t / 16;
    assert (t % 16 * 16 + u / 4) / 16 == t % 16 && (t % 16 * 16 + u / 4) % 16 == u / 4;
    assert (u % 4 * 64 + v) / 64 == u % 4;
  }

  lemma DecodeLastTwo(s: Sextet, t: Sextet)
    ensures AllInAlphabet(Letters([s, t])) && DecodeLast(Letters([s, t])) == Some([Byte0(s, t)])
  {
    LettersInverse([s, t]);
  }

  lemma DecodeLastThree(s: Sextet, t: Sextet, u: Sextet)
    ensures AllInAlphabet(Letters([s, t, u])) && DecodeLast(Letters([s, t, u])) == Some([Byte0(s, t), Byte1(t, u)])
  {
    LettersInverse([s, t, u]);
  }

  lemma Unit1(a: Byte)
    ensures AllInAlphabet(Encode1(a)) && DecodeLast(Encode1(a)) == Some([a])
  {
    DecodeLastTwo(a / 4, a % 4 * 16);
    BytesInverse(a, 0, 0);
  }

  lemma Unit2(a: Byte, b: Byte)
    ensures AllInAlphabet(Encode2(a, b)) && DecodeLast(Encode2(a, b)) == Some([a, b])
  {
    DecodeLastThree(a / 4, a % 4 * 16 + b / 16, b % 16 * 4);
    BytesInverse(a, b, 0);
  }

  lemma Unit3(a: Byte, b: Byte, c: Byte)
    ensures AllInAlphabet(Encode3(a, b, c)) && DecodeUnit(Encode3(a, b, c)) == [a, b, c]
  {
    LettersInverse([a / 4, a % 4 * 16 + b / 16, b % 16 * 4 + c / 64, c % 64]);
    BytesInverse(a, b, c);
  }

  lemma {:induction false} EncodeAlphabet(bytes: seq<Byte>)
    ensures AllInAlphabet(Encode(bytes))
  {
    if |bytes| == 1 {
      Unit1(bytes[0]);
    } else if |bytes| == 2 {
      Unit2(bytes[0], bytes[1]);
    } else if |bytes| >= 3 {
      Unit3(bytes[0], bytes[1], bytes[2]);
      EncodeAlphabet(bytes[3..]);
    }
  }

  /** Base64url loses nothing, for every length modulo three. */
  lemma {:induction false} DecodeEncode(bytes: seq<Byte>)
    ensures Decode(Encode(bytes)) == Some(bytes)
  {
    if |bytes| == 1 {
      Unit1(bytes[0]);
      assert bytes == [bytes[0]];
    } else if |bytes| == 2 {
      Unit2(bytes[0], bytes[1]);
      assert bytes == [bytes[0], bytes[1]];
    } else if |bytes| >= 3 {
      Unit3(bytes[0], bytes[1], bytes[2]);
      DecodeEncode(bytes[3..]);
      DecodeStep(Encode3(bytes[0], bytes[1], bytes[2]), Encode(bytes[3..]));
      assert bytes == [bytes[0], bytes[1], bytes[2]] + bytes[3..];
    }
  }

  /** A full unit decodes on its own, whatever follows it. */
  lemma DecodeStep(unit: string, rest: string)
    requires |unit| == 4 && AllInAlphabet(unit)
    ensures Decode(unit + rest)
         == if Decode(rest).Some? then Some(DecodeUnit(unit) + Decode(rest).value) else None
  {
    var t := unit + rest;
    assert t[..4] == unit && t[4..] == rest;
  }

  lemma EncodeInjective(a: seq<Byte>, b: seq<Byte>)
    requires Encode(a) == Encode(b)
    ensures a == b
  {
    DecodeEncode(a);
    DecodeEncode(b);
  }

  /** Bare, in the alphabet, of an encodable length, and with zeros in the unused low bits. */
  predicate Canonical(t: string) {
    && AllInAlphabet(t)
    && |t| % 4 != 1
    && (|t| % 4 == 2 ==> FromChar(t[|t| - 1]) % 16 == 0)
    && (|t| % 4 == 3 ==> FromChar(t[|t| - 1]) % 4 == 0)
  }

  /**
   * A text is the encoding of what it decodes to exactly when it is canonical. The decoder also
   * accepts other texts (padding, stray low bits), so several texts may denote the same bytes.
   */
  lemma {:induction false} EncodeDecode(t: string)
    ensures Canonical(t) ==> Decode(t).Some?
    ensures Decode(t).Some? ==> (Encode(Decode(t).value) == t <==> Canonical(t))
  {
    if |t| >= 4 && AllInAlphabet(t[..4]) {
      var unit, rest := t[..4], t[4..];
      assert t == unit + rest;
      EncodeDecode(rest);
      CanonicalTail(t);
      EncodeUnit(unit);
      if Decode(rest).Some? {
        var three, tail := DecodeUnit(unit), Decode(rest).value;
        assert (three + tail)[3..] == tail;
        assert Encode(three + tail) == unit + Encode(tail);
        assert Encode(tail) == rest <==> unit + Encode(tail) == t by {
          assert (unit + Encode(tail))[4..] == Encode(tail);
        }
      }
    } else if |t| < 4 {
      EncodeLast(t);
    } else {
      assert !AllInAlphabet(t);
      if Decode(t).Some? {
        EncodeAlphabet(Decode(t).value);
      }
    }
  }

  /** The text without the padding of a complete last unit. */
  function Unpadded(t: string): string {
    var n := |t|;
    if n == 0 || n % 4 != 0 then t
    else if t[n - 1] == '=' && t[n - 2] == '=' then t[..n - 2]
    else if t[n - 1] == '=' then t[..n - 1]
    else t
  }

  predicate Decodable(t: string) { AllInAlphabet(t) && |t| % 4 != 1 }

  /** Exactly these texts decode: padded or not, letters only, and no lone letter at the end. */
  lemma {:induction false} DecodesExactly(t: string)
    ensures Decode(t).Some? <==> Decodable(Unpadded(t))
  {
    if |t| >= 4 && AllInAlphabet(t[..4]) {
      var unit, rest := t[..4], t[4..];
      DecodesExactly(rest);
      assert t == unit + rest;
      DecodeStep(unit, rest);
      UnpaddedTail(t);
      DecodableTail(unit, Unpadded(rest));
    } else if t != "" {
      DecodesLast(t);
    }
  }

  lemma UnpaddedTail(t: string)
    requires |t| >= 4 && AllInAlphabet(t[..4])
    ensures Unpadded(t) == t[..4] + Unpadded(t[4..])
  {
    assert t == t[..4] + t[4..];
    if |t| == 4 {
      assert InAlphabet(t[..4][3]);
    }
  }

  lemma DecodableTail(unit: string, t: string)
    requires |unit| == 4 && AllInAlphabet(unit)
    ensures Decodable(unit + t) <==> Decodable(t)
  {
    if AllInAlphabet(unit + t) {
      forall i | 0 <= i < |t| ensures InAlphabet(t[i]) {
        assert (unit + t)[4 + i] == t[i];
      }
    }
  }

  lemma DecodesLast(t: string)
    requires t != "" && (|t| < 4 || !AllInAlphabet(t[..4]))
    ensures DecodeLast(t).Some? <==> Decodable(Unpadded(t))
  {
    if |t| > 4 {
      var i :| 0 <= i < 4 && !InAlphabet(t[..4][i]);
      assert Unpadded(t)[i] == t[i];
    } else if |t| == 4 {
      assert t[..4] == t;
    }
  }

  lemma EncodeUnit(t: string)
    requires |t| == 4 && AllInAlphabet(t)
    ensures var three := DecodeUnit(t); Encode3(three[0], three[1], three[2]) == t
  {
    var s := Sextets(t);
    SextetsInverse(s[0], s[1], s[2], s[3]);
    assert s == [s[0], s[1], s[2], s[3]];
    SextetsLetters(t);
  }

  /** The last unit is reproduced exactly when the bits it does not use are zero. */
  lemma EncodeLast(t: string)
    requires |t| < 4
    ensures Canonical(t) ==> Decode(t).Some?
    ensures Decode(t).Some? ==> (Encode(Decode(t).value) == t <==> Canonical(t))
  {
    DecodeShort(t);
    if AllInAlphabet(t) && |t| == 2 {
      EncodeLast2(t, Sextets(t));
    } else if AllInAlphabet(t) && |t| == 3 {
      EncodeLast3(t, Sextets(t));
    } else {
      assert !Canonical(t) || t == "";
    }
  }

  lemma DecodeShort(t: string)
    requires |t| < 4
    ensures t == "" ==> Decode(t) == Some([])
    ensures t != "" && (|t| == 1 || !AllInAlphabet(t)) ==> Decode(t) == None
    ensures |t| == 2 && AllInAlphabet(t) ==> var s := Sextets(t); Decode(t) == Some([Byte0(s[0], s[1])])
    ensures |t| == 3 && AllInAlphabet(t) ==>
      var s := Sextets(t); Decode(t) == Some([Byte0(s[0], s[1]), Byte1(s[1], s[2])])
  {
  }

  lemma EncodeShort(a: Byte, b: Byte)
    ensures Encode([a]) == Encode1(a) && Encode([a, b]) == Encode2(a, b)
  {
  }

  lemma EncodeLast2(t: string, s: seq<Sextet>)
    requires |t| == 2 && AllInAlphabet(t) && s == Sextets(t)
    ensures Encode([Byte0(s[0], s[1])]) == t <==> Canonical(t)
  {
    EncodeShort(Byte0(s[0], s[1]), 0);
    SextetsLetters(t);
    SextetsInverse(s[0], s[1], 0, 0);
    LastLetters(s, [s[0], s[1] / 16 * 16]);
  }

  lemma EncodeLast3(t: string, s: seq<Sextet>)
    requires |t| == 3 && AllInAlphabet(t) && s == Sextets(t)
    ensures Encode([Byte0(s[0], s[1]), Byte1(s[1], s[2])]) == t <==> Canonical(t)
  {
    EncodeShort(Byte0(s[0], s[1]), Byte1(s[1], s[2]));
    SextetsLetters(t);
    SextetsInverse(s[0], s[1], s[2], 0);
    LastLetters(s, [s[0], s[1], s[2] / 4 * 4]);
  }

  lemma LastLetters(s: seq<Sextet>, s': seq<Sextet>)
    ensures Letters(s) == Letters(s') <==> s == s'
  {
    LettersInverse(s);
    LettersInverse(s');
  }

  lemma CanonicalTail(t: string)
    requires |t| >= 4 && AllInAlphabet(t[..4])
    ensures Canonical(t) <==> Canonical(t[4..])
  {
    assert t == t[..4] + t[4..];
    if AllInAlphabet(t[4..]) {
      forall i | 0 <= i < |t| ensures InAlphabet(t[i]) {
        assert i < 4 ==> t[i] == t[..4][i];
        assert i >= 4 ==> t[i] == t[4..][i - 4];
      }
    }
    if AllInAlphabet(t) {
      forall i | 0 <= i < |t| - 4 ensures InAlphabet(t[4..][i]) {
        assert t[4..][i] == t[i + 4];
      }
    }
  }

  /** A two-letter text and the one with its low bits cleared denote the same byte. */
  lemma StrayBitsIgnored(s: Sextet, t: Sextet)
    ensures Decode(Letters([s, t])) == Decode(Letters([s, t / 16 * 16])) == Some([Byte0(s, t)])
    ensures t % 16 != 0 ==> Letters([s, t]) != Letters([s, t / 16 * 16])
  {
    LettersInverse([s, t]);
    LettersInverse([s, t / 16 * 16]);
    LastLetters([s, t], [s, t / 16 * 16]);
  }
}
