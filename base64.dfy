/**
 * The standard base64 encoding of section 4 of RFC 4648 (alphabet A-Z, a-z,
 * 0-9, '+', '/', padded with '='), as Go's base64.StdEncoding writes it,
 * together with a decoder that inverts it.
 */
module Base64 {
  import opened Wrappers

  type Byte = b: int | 0 <= b < 256
  type Sextet = v: int | 0 <= v < 64

  const Pad: char := '='

  /** The 64 characters of the alphabet (Table 1 of RFC 4648), each with its value. */
  predicate IsAlphabet(c: char)
  {
    ('A' <= c <= 'Z') || ('a' <= c <= 'z') || ('0' <= c <= '9') || c == '+' || c == '/'
  }

  function Value(c: char): Sextet
    requires IsAlphabet(c)
  {
    if 'A' <= c <= 'Z' then c as int - 'A' as int
    else if 'a' <= c <= 'z' then c as int - 'a' as int + 26
    else if '0' <= c <= '9' then c as int - '0' as int + 52
    else if c == '+' then 62
    else 63
  }

  function Char(v: Sextet): (c: char)
    ensures IsAlphabet(c) && Value(c) == v
  {
    if v < 26 then ('A' as int + v) as char
    else if v < 52 then ('a' as int + v - 26) as char
    else if v < 62 then ('0' as int + v - 52) as char
    else if v == 62 then '+'
    else '/'
  }

  /** Every character of an encoding is in the alphabet or is padding. */
  predicate IsEncodingText(s: string)
  {
    forall i :: 0 <= i < |s| ==> IsAlphabet(s[i]) || s[i] == Pad
  }

  /** base64.StdEncoding.EncodeToString: three bytes become four characters; a short final group is padded. */
  function Encode(b: seq<Byte>): (s: string)
    ensures |s| == 4 * ((|b| + 2) / 3)
    ensures IsEncodingText(s)
    decreases |b|
  {
    if |b| == 0 then ""
    else if |b| == 1 then
      [Char(b[0] / 4), Char((b[0] % 4) * 16), Pad, Pad]
    else if |b| == 2 then
      [Char(b[0] / 4), Char((b[0] % 4) * 16 + b[1] / 16), Char((b[1] % 16) * 4), Pad]
    else
      var group := [Char(b[0] / 4), Char((b[0] % 4) * 16 + b[1] / 16), Char((b[1] % 16) * 4 + b[2] / 64), Char(b[2] % 64)];
      var rest := Encode(b[3..]);
      assert (|b| + 2) / 3 == (|b[3..]| + 2) / 3 + 1;
      EncodingTextAppend(group, rest);
      group + rest
  }

  lemma EncodingTextAppend(a: string, b: string)
    requires IsEncodingText(a) && IsEncodingText(b)
    ensures IsEncodingText(a + b)
  {
    forall i | 0 <= i < |a + b|
      ensures IsAlphabet((a + b)[i]) || (a + b)[i] == Pad
    {
      if i >= |a| {
        assert (a + b)[i] == b[i - |a|];
      }
    }
  }

  /** The inverse of Encode; None for text that no encoding produces in this form. */
  function Decode(s: string): Option<seq<Byte>>
    decreases |s|
  {
    if |s| == 0 then Some([])
    else if |s| < 4 then None
    else if |s| == 4 && s[3] == Pad then DecodeFinal(s[0], s[1], s[2])
    else
      match DecodeQuad(s[0], s[1], s[2], s[3])
      case None => None
      case Some(group) =>
        match Decode(s[4..])
        case None => None
        case Some(rest) => Some(group + rest)
  }

  /** Four alphabet characters carry three bytes. */
  function DecodeQuad(c0: char, c1: char, c2: char, c3: char): Option<seq<Byte>>
  {
    if IsAlphabet(c0) && IsAlphabet(c1) && IsAlphabet(c2) && IsAlphabet(c3) then
      var v0, v1, v2, v3 := Value(c0), Value(c1), Value(c2), Value(c3);
      Some([v0 * 4 + v1 / 16, (v1 % 16) * 16 + v2 / 4, (v2 % 4) * 64 + v3])
    else None
  }

  /** A padded final group carries one byte ("xx==") or two ("xxx="). */
  function DecodeFinal(c0: char, c1: char, c2: char): Option<seq<Byte>>
  {
    if IsAlphabet(c0) && IsAlphabet(c1) && c2 == Pad then
      Some([Value(c0) * 4 + Value(c1) / 16])
    else if IsAlphabet(c0) && IsAlphabet(c1) && IsAlphabet(c2) then
      var v1 := Value(c1);
      Some([Value(c0) * 4 + v1 / 16, (v1 % 16) * 16 + Value(c2) / 4])
    else None
  }

  /** Decoding an encoding gives back the bytes. */
  lemma {:induction false} DecodeEncode(b: seq<Byte>)
    ensures Decode(Encode(b)) == Some(b)
    decreases |b|
  {
    if |b| == 1 {
      FinalOfOne(b[0]);
      assert [b[0]] == b;
    } else if |b| == 2 {
      FinalOfTwo(b[0], b[1]);
      assert [b[0], b[1]] == b;
    } else if |b| >= 3 {
      var q := EncodeGroup(b);
      DecodeEncode(b[3..]);
      DecodeCons(q, Encode(b[3..]), b[..3], b[3..]);
      assert b[..3] + b[3..] == b;
    }
  }

  /** The first four characters of an encoding of three or more bytes carry the first three. */
  lemma EncodeGroup(b: seq<Byte>) returns (q: string)
    requires |b| >= 3
    ensures |q| == 4 && q[3] != Pad
    ensures Encode(b) == q + Encode(b[3..])
    ensures DecodeQuad(q[0], q[1], q[2], q[3]) == Some(b[..3])
  {
    q := [Char(b[0] / 4), Char((b[0] % 4) * 16 + b[1] / 16), Char((b[1] % 16) * 4 + b[2] / 64), Char(b[2] % 64)];
    QuadOfThree(b[0], b[1], b[2]);
    assert [b[0], b[1], b[2]] == b[..3];
  }

  /** Three bytes encode to one unpadded group of four characters. */
  lemma EncodeOfThree(b0: Byte, b1: Byte, b2: Byte)
    ensures Encode([b0, b1, b2]) == [Char(b0 / 4), Char((b0 % 4) * 16 + b1 / 16), Char((b1 % 16) * 4 + b2 / 64), Char(b2 % 64)]
  {
    var b := [b0, b1, b2];
    assert b[3..] == [];
    assert Encode(b[3..]) == "";
  }

  /** A full group of four characters decodes to the three bytes it was made from. */
  lemma QuadOfThree(b0: Byte, b1: Byte, b2: Byte)
    ensures DecodeQuad(Char(b0 / 4), Char((b0 % 4) * 16 + b1 / 16), Char((b1 % 16) * 4 + b2 / 64), Char(b2 % 64))
            == Some([b0, b1, b2])
  {
    var v0, v1, v2, v3 := b0 / 4, (b0 % 4) * 16 + b1 / 16, (b1 % 16) * 4 + b2 / 64, b2 % 64;
    GroupOfThree(b0, b1, b2);
    assert Value(Char(v0)) == v0 && Value(Char(v1)) == v1 && Value(Char(v2)) == v2 && Value(Char(v3)) == v3;
  }

  /** A final group "xx==" decodes to the one byte it was made from. */
  lemma FinalOfOne(b0: Byte)
    ensures DecodeFinal(Char(b0 / 4), Char((b0 % 4) * 16), Pad) == Some([b0])
  {
    var v0, v1 := b0 / 4, (b0 % 4) * 16;
    GroupOfOne(b0);
    assert Value(Char(v0)) == v0 && Value(Char(v1)) == v1;
  }

  /** A final group "xxx=" decodes to the two bytes it was made from. */
  lemma FinalOfTwo(b0: Byte, b1: Byte)
    ensures DecodeFinal(Char(b0 / 4), Char((b0 % 4) * 16 + b1 / 16), Char((b1 % 16) * 4)) == Some([b0, b1])
  {
    var v0, v1, v2 := b0 / 4, (b0 % 4) * 16 + b1 / 16, (b1 % 16) * 4;
    GroupOfTwo(b0, b1);
    assert Value(Char(v0)) == v0 && Value(Char(v1)) == v1 && Value(Char(v2)) == v2;
  }

  lemma DecodeCons(q: string, t: string, g: seq<Byte>, r: seq<Byte>)
    requires |q| == 4 && q[3] != Pad
    requires DecodeQuad(q[0], q[1], q[2], q[3]) == Some(g)
    requires Decode(t) == Some(r)
    ensures Decode(q + t) == Some(g + r)
  {
    var s := q + t;
    assert s[..4] == q && s[4..] == t;
  }

  lemma GroupOfOne(b0: Byte)
    ensures ((b0 % 4) * 16) / 16 == b0 % 4
    ensures (b0 / 4) * 4 + ((b0 % 4) * 16) / 16 == b0
  {
  }

  lemma GroupOfTwo(b0: Byte, b1: Byte)
    ensures ((b0 % 4) * 16 + b1 / 16) / 16 == b0 % 4
    ensures ((b0 % 4) * 16 + b1 / 16) % 16 == b1 / 16
    ensures (b0 / 4) * 4 + ((b0 % 4) * 16 + b1 / 16) / 16 == b0
    ensures (((b0 % 4) * 16 + b1 / 16) % 16) * 16 + ((b1 % 16) * 4) / 4 == b1
  {
  }

  lemma GroupOfThree(b0: Byte, b1: Byte, b2: Byte)
    ensures (b0 / 4) * 4 + ((b0 % 4) * 16 + b1 / 16) / 16 == b0
    ensures (((b0 % 4) * 16 + b1 / 16) % 16) * 16 + ((b1 % 16) * 4 + b2 / 64) / 4 == b1
    ensures (((b1 % 16) * 4 + b2 / 64) % 4) * 64 + b2 % 64 == b2
  {
    GroupOfTwo(b0, b1);
    assert ((b1 % 16) * 4 + b2 / 64) / 4 == b1 % 16;
    assert ((b1 % 16) * 4 + b2 / 64) % 4 == b2 / 64;
  }

  /**
   * Go's []byte(s) for a string whose characters stand for bytes; a character
   * beyond that range keeps only its low byte (no UTF-8 encoding is modelled).
   */
  function ToBytes(s: string): (b: seq<Byte>)
    ensures |b| == |s|
  {
    seq(|s|, i requires 0 <= i < |s| => (s[i] as int % 256) as Byte)
  }

  /** Go's string(b). */
  function FromBytes(b: seq<Byte>): (s: string)
    ensures |s| == |b|
  {
    seq(|b|, i requires 0 <= i < |b| => b[i] as char)
  }

  /** Every character stands for one byte. */
  predicate IsByteString(s: string)
  {
    forall i :: 0 <= i < |s| ==> s[i] as int < 256
  }

  lemma FromToBytes(s: string)
    requires IsByteString(s)
    ensures FromBytes(ToBytes(s)) == s
  {
    assert forall i :: 0 <= i < |s| ==> FromBytes(ToBytes(s))[i] == s[i];
  }
}
