/**
 * The standard padded base64 encoding of section 4 of RFC 4648, which the
 * signature header uses. Encoding is total; decoding is the strict inverse
 * (canonical padding, zero pad bits) and serves as the partner that pins the
 * encoding down.
 */
module Base64 {
  import opened Wrappers

  type byte = b: int | 0 <= b < 256

  /** The value of one base64 digit. */
  type sextet = v: int | 0 <= v < 64

  const PAD: char := '='

  /**
   * The digit for a 6-bit value, as Table 1 of RFC 4648 lists them: `A`-`Z`
   * for 0-25, `a`-`z` for 26-51, `0`-`9` for 52-61, `+` for 62, `/` for 63.
   */
  function Digit(v: sextet): (c: char)
  {
    if v < 26 then ('A' as int + v) as char
    else if v < 52 then ('a' as int + (v - 26)) as char
    else if v < 62 then ('0' as int + (v - 52)) as char
    else if v == 62 then '+'
    else '/'
  }

  /** The value of a digit; `None` for a character outside the alphabet, padding included. */
  function ValueOf(c: char): (r: Option<sextet>)
  {
    if 'A' <= c <= 'Z' then Some(c as int - 'A' as int)
    else if 'a' <= c <= 'z' then Some(c as int - 'a' as int + 26)
    else if '0' <= c <= '9' then Some(c as int - '0' as int + 52)
    else if c == '+' then Some(62)
    else if c == '/' then Some(63)
    else None
  }

  /** Digit and value are inverse bijections between the 64 values and the alphabet. */
  lemma ValueOfDigit(v: sextet)
    ensures ValueOf(Digit(v)) == Some(v)
  {
  }

  lemma DigitOfValue(c: char)
    requires ValueOf(c).Some?
    ensures Digit(ValueOf(c).value) == c
  {
    var v := ValueOf(c).value;
    if 'A' <= c <= 'Z' {
      assert v < 26 && ('A' as int + v) as char == c;
    } else if 'a' <= c <= 'z' {
      assert 26 <= v < 52 && ('a' as int + (v - 26)) as char == c;
    } else if '0' <= c <= '9' {
      assert 52 <= v < 62 && ('0' as int + (v - 52)) as char == c;
    }
  }

  predicate IsDigit(c: char)
  {
    ValueOf(c).Some?
  }

  // ---------------------------------------------------------------------
  // Bits: three bytes are 24 bits, read as four 6-bit values.
  // ---------------------------------------------------------------------

  function ToSextets(b0: byte, b1: byte, b2: byte): (vs: seq<sextet>)
    ensures |vs| == 4
  {
    [b0 / 4, (b0 % 4) * 16 + b1 / 16, (b1 % 16) * 4 + b2 / 64, b2 % 64]
  }

  function FromSextets(v0: sextet, v1: sextet, v2: sextet, v3: sextet): (bs: seq<byte>)
    ensures |bs| == 3
  {
    [v0 * 4 + v1 / 16, (v1 % 16) * 16 + v2 / 4, (v2 % 4) * 64 + v3]
  }

  /** Regrouping the bits loses nothing, in either direction. */
  lemma FromToSextets(b0: byte, b1: byte, b2: byte)
    ensures var vs := ToSextets(b0, b1, b2); FromSextets(vs[0], vs[1], vs[2], vs[3]) == [b0, b1, b2]
  {
    var v0, v1, v2, v3 := b0 / 4, (b0 % 4) * 16 + b1 / 16, (b1 % 16) * 4 + b2 / 64, b2 % 64;
    assert v0 * 4 + v1 / 16 == b0 && (v1 % 16) * 16 + v2 / 4 == b1 && (v2 % 4) * 64 + v3 == b2;
  }

  lemma ToFromSextets(v0: sextet, v1: sextet, v2: sextet, v3: sextet)
    ensures var bs := FromSextets(v0, v1, v2, v3); ToSextets(bs[0], bs[1], bs[2]) == [v0, v1, v2, v3]
  {
    var b0, b1, b2 := v0 * 4 + v1 / 16, (v1 % 16) * 16 + v2 / 4, (v2 % 4) * 64 + v3;
    assert b0 / 4 == v0 && (b0 % 4) * 16 + b1 / 16 == v1 && (b1 % 16) * 4 + b2 / 64 == v2 && b2 % 64 == v3;
  }

  function Digits(vs: seq<sextet>): (s: string)
    ensures |s| == |vs|
  {
    seq(|vs|, i requires 0 <= i < |vs| => Digit(vs[i]))
  }

  // ---------------------------------------------------------------------
  // Encoding: each 3-byte group becomes 4 digits; a final group of 1 or 2
  // bytes is zero-extended and its unused digits are replaced by `=`.
  // ---------------------------------------------------------------------

  function EncodeGroup(b0: byte, b1: byte, b2: byte): (q: string)
    ensures |q| == 4
  {
    Digits(ToSextets(b0, b1, b2))
  }

  function EncodeTwo(b0: byte, b1: byte): (q: string)
    ensures |q| == 4
  {
    Digits(ToSextets(b0, b1, 0)[..3]) + [PAD]
  }

  function EncodeOne(b0: byte): (q: string)
    ensures |q| == 4
  {
    Digits(ToSextets(b0, 0, 0)[..2]) + [PAD, PAD]
  }

  /** `STANDARD.encode`: padded base64 of the bytes. */
  function Encode(bs: seq<byte>): (s: string)
    decreases |bs|
    ensures |s| % 4 == 0
  {
    if |bs| == 0 then []
    else if |bs| == 1 then EncodeOne(bs[0])
    else if |bs| == 2 then EncodeTwo(bs[0], bs[1])
    else EncodeGroup(bs[0], bs[1], bs[2]) + Encode(bs[3..])
  }

  /** The encoding has 4·⌈n/3⌉ characters, so it is empty only for no bytes. */
  lemma {:induction false} EncodeLength(bs: seq<byte>)
    ensures |Encode(bs)| == 4 * ((|bs| + 2) / 3)
    ensures bs != [] <==> Encode(bs) != []
    decreases |bs|
  {
    if |bs| > 2 {
      EncodeLength(bs[3..]);
      assert (|bs| + 2) / 3 == (|bs[3..]| + 2) / 3 + 1;
    }
  }

  // ---------------------------------------------------------------------
  // Decoding, the inverse.
  // ---------------------------------------------------------------------

  /** Four digits to three bytes. */
  function DecodeGroup(q: string): (r: Option<seq<byte>>)
    requires |q| == 4
    ensures r.Some? ==> |r.value| == 3
  {
    match (ValueOf(q[0]), ValueOf(q[1]), ValueOf(q[2]), ValueOf(q[3]))
    case (Some(v0), Some(v1), Some(v2), Some(v3)) => Some(FromSextets(v0, v1, v2, v3))
    case _ => None
  }

  /** The last group: four digits, or one or two bytes with their padding; pad bits must be zero. */
  function DecodeLast(q: string): (r: Option<seq<byte>>)
    requires |q| == 4
    ensures r.Some? ==> 1 <= |r.value| <= 3
  {
    if q[2] == PAD && q[3] == PAD then
      match (ValueOf(q[0]), ValueOf(q[1]))
      case (Some(v0), Some(v1)) => if v1 % 16 == 0 then Some(FromSextets(v0, v1, 0, 0)[..1]) else None
      case _ => None
    else if q[3] == PAD then
      match (ValueOf(q[0]), ValueOf(q[1]), ValueOf(q[2]))
      case (Some(v0), Some(v1), Some(v2)) => if v2 % 4 == 0 then Some(FromSextets(v0, v1, v2, 0)[..2]) else None
      case _ => None
    else DecodeGroup(q)
  }

  /** Strict decoding: a whole number of groups, padding only in the last one. */
  function Decode(s: string): (r: Option<seq<byte>>)
    decreases |s|
  {
    if |s| == 0 then Some([])
    else if |s| < 4 then None
    else if |s| == 4 then DecodeLast(s)
    else
      match (DecodeGroup(s[..4]), Decode(s[4..]))
      case (Some(g), Some(rest)) => Some(g + rest)
      case _ => None
  }

  lemma DecodeEncodeGroup(b0: byte, b1: byte, b2: byte)
    ensures DecodeGroup(EncodeGroup(b0, b1, b2)) == Some([b0, b1, b2])
    ensures DecodeLast(EncodeGroup(b0, b1, b2)) == Some([b0, b1, b2])
  {
    var vs := ToSextets(b0, b1, b2);
    var q := EncodeGroup(b0, b1, b2);
    forall i | 0 <= i < 4
      ensures ValueOf(q[i]) == Some(vs[i])
    {
      ValueOfDigit(vs[i]);
    }
    FromToSextets(b0, b1, b2);
  }

  lemma DecodeEncodeTwo(b0: byte, b1: byte)
    ensures DecodeLast(EncodeTwo(b0, b1)) == Some([b0, b1])
  {
    var vs := ToSextets(b0, b1, 0);
    var q := EncodeTwo(b0, b1);
    forall i | 0 <= i < 3
      ensures ValueOf(q[i]) == Some(vs[i])
    {
      ValueOfDigit(vs[i]);
    }
    assert q[2] != PAD && q[3] == PAD;
    assert vs[2] % 4 == 0 && vs[3] == 0;
    FromToSextets(b0, b1, 0);
    assert FromSextets(vs[0], vs[1], vs[2], 0)[..2] == [b0, b1, 0][..2] == [b0, b1];
  }

  lemma DecodeEncodeOne(b0: byte)
    ensures DecodeLast(EncodeOne(b0)) == Some([b0])
  {
    var vs := ToSextets(b0, 0, 0);
    var q := EncodeOne(b0);
    forall i | 0 <= i < 2
      ensures ValueOf(q[i]) == Some(vs[i])
    {
      ValueOfDigit(vs[i]);
    }
    assert q[2] == PAD && q[3] == PAD;
    assert vs[1] % 16 == 0 && vs[2] == 0 && vs[3] == 0;
    FromToSextets(b0, 0, 0);
    assert FromSextets(vs[0], vs[1], 0, 0)[..1] == [b0, 0, 0][..1] == [b0];
  }

  /** A full group in front of more groups is decoded on its own. */
  lemma DecodeCons(q: string, rest: string, g: seq<byte>, r: seq<byte>)
    requires |q| == 4 && rest != []
    requires DecodeGroup(q) == Some(g) && Decode(rest) == Some(r)
    ensures Decode(q + rest) == Some(g + r)
  {
    assert (q + rest)[..4] == q && (q + rest)[4..] == rest;
  }

  lemma DecodeEncodeStep(bs: seq<byte>)
    requires |bs| > 3 && Decode(Encode(bs[3..])) == Some(bs[3..])
    ensures Decode(Encode(bs)) == Some(bs)
  {
    var q := EncodeGroup(bs[0], bs[1], bs[2]);
    var rest := Encode(bs[3..]);
    DecodeEncodeGroup(bs[0], bs[1], bs[2]);
    EncodeLength(bs[3..]);
    DecodeCons(q, rest, [bs[0], bs[1], bs[2]], bs[3..]);
    SplitGroup(bs);
  }

  lemma SplitGroup(bs: seq<byte>)
    requires |bs| >= 3
    ensures bs == [bs[0], bs[1], bs[2]] + bs[3..]
  {
  }

  /** Decoding an encoding gives the bytes back. */
  lemma {:induction false} DecodeEncode(bs: seq<byte>)
    ensures Decode(Encode(bs)) == Some(bs)
    decreases |bs|
  {
    if |bs| == 1 {
      DecodeEncodeOne(bs[0]);
      assert bs == [bs[0]];
    } else if |bs| == 2 {
      DecodeEncodeTwo(bs[0], bs[1]);
      assert bs == [bs[0], bs[1]];
    } else if |bs| == 3 {
      DecodeEncodeGroup(bs[0], bs[1], bs[2]);
      assert Encode(bs) == EncodeGroup(bs[0], bs[1], bs[2]) + [];
      assert bs == [bs[0], bs[1], bs[2]];
    } else if |bs| > 3 {
      DecodeEncode(bs[3..]);
      DecodeEncodeStep(bs);
    }
  }

  /** The values of four characters that all decode. */
  lemma DigitsOfValues(q: string, vs: seq<sextet>, n: nat)
    requires n <= |q| && n <= |vs|
    requires forall i :: 0 <= i < n ==> ValueOf(q[i]) == Some(vs[i])
    ensures Digits(vs[..n]) == q[..n]
  {
    forall i | 0 <= i < n
      ensures Digits(vs[..n])[i] == q[i]
    {
      DigitOfValue(q[i]);
    }
  }

  lemma EncodeDecodeGroup(q: string)
    requires |q| == 4 && DecodeGroup(q).Some?
    ensures var g := DecodeGroup(q).value; EncodeGroup(g[0], g[1], g[2]) == q
  {
    var v0, v1, v2, v3 := ValueOf(q[0]).value, ValueOf(q[1]).value, ValueOf(q[2]).value, ValueOf(q[3]).value;
    ToFromSextets(v0, v1, v2, v3);
    DigitsOfValues(q, [v0, v1, v2, v3], 4);
    assert q[..4] == q;
  }

  lemma EncodeDecodeOne(q: string)
    requires |q| == 4 && q[2] == PAD && q[3] == PAD && DecodeLast(q).Some?
    ensures Encode(DecodeLast(q).value) == q
  {
    var g := DecodeLast(q).value;
    var v0, v1 := ValueOf(q[0]).value, ValueOf(q[1]).value;
    ToFromSextets(v0, v1, 0, 0);
    DigitsOfValues(q, [v0, v1], 2);
    assert Encode(g) == EncodeOne(g[0]);
    assert q == q[..2] + [PAD, PAD];
  }

  lemma EncodeDecodeTwo(q: string)
    requires |q| == 4 && q[2] != PAD && q[3] == PAD && DecodeLast(q).Some?
    ensures Encode(DecodeLast(q).value) == q
  {
    var g := DecodeLast(q).value;
    var v0, v1, v2 := ValueOf(q[0]).value, ValueOf(q[1]).value, ValueOf(q[2]).value;
    ToFromSextets(v0, v1, v2, 0);
    DigitsOfValues(q, [v0, v1, v2], 3);
    assert Encode(g) == EncodeTwo(g[0], g[1]);
    assert q == q[..3] + [PAD];
  }

  lemma EncodeDecodeLast(q: string)
    requires |q| == 4 && DecodeLast(q).Some?
    ensures Encode(DecodeLast(q).value) == q
  {
    if q[2] == PAD && q[3] == PAD {
      EncodeDecodeOne(q);
    } else if q[3] == PAD {
      EncodeDecodeTwo(q);
    } else {
      var g := DecodeLast(q).value;
      EncodeDecodeGroup(q);
      assert Encode(g) == EncodeGroup(g[0], g[1], g[2]) + Encode([]);
    }
  }

  /** Only canonical encodings decode: whatever decodes re-encodes to the same text. */
  lemma {:induction false} EncodeDecode(s: string)
    requires Decode(s).Some?
    ensures Encode(Decode(s).value) == s
    decreases |s|
  {
    if |s| == 4 {
      EncodeDecodeLast(s);
    } else if |s| > 4 {
      var g := DecodeGroup(s[..4]).value;
      var rest := Decode(s[4..]).value;
      EncodeDecodeGroup(s[..4]);
      EncodeDecode(s[4..]);
      assert rest != [] by {
        assert |s[4..]| > 0;
      }
      assert (g + rest)[3..] == rest;
      assert s == s[..4] + s[4..];
    }
  }

  /** Every character of an encoding is a digit of the alphabet or the padding `=`. */
  lemma {:induction false} EncodeShape(bs: seq<byte>)
    ensures forall i :: 0 <= i < |Encode(bs)| ==> IsDigit(Encode(bs)[i]) || Encode(bs)[i] == PAD
    decreases |bs|
  {
    if |bs| > 2 {
      EncodeShape(bs[3..]);
      var vs := ToSextets(bs[0], bs[1], bs[2]);
      var q := EncodeGroup(bs[0], bs[1], bs[2]);
      var rest := Encode(bs[3..]);
      forall i | 0 <= i < |q + rest|
        ensures IsDigit((q + rest)[i]) || (q + rest)[i] == PAD
      {
        if i < 4 {
          ValueOfDigit(vs[i]);
        } else {
          assert (q + rest)[i] == rest[i - 4];
        }
      }
    } else if |bs| == 2 {
      var vs := ToSextets(bs[0], bs[1], 0);
      forall i | 0 <= i < 3 ensures IsDigit(Encode(bs)[i]) {
        ValueOfDigit(vs[i]);
      }
    } else if |bs| == 1 {
      var vs := ToSextets(bs[0], 0, 0);
      forall i | 0 <= i < 2 ensures IsDigit(Encode(bs)[i]) {
        ValueOfDigit(vs[i]);
      }
    }
  }
}
