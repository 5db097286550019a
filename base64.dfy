/**
 * The base64 encoding of section 4 of RFC 4648 (standard alphabet, with
 * padding), as produced by a byte buffer's `toString("base64")`, and its
 * decoding as the partner that the round trip is proved against.
 */
module Base64 {
  import opened Common

  type Byte = x: int | 0 <= x < 256

  /** The character that stands for a 6-bit group (RFC 4648 section 4, Table 1). */
  function Sextet(k: int): char
    requires 0 <= k < 64
  {
    if k < 26 then (('A' as int) + k) as char
    else if k < 52 then (('a' as int) + k - 26) as char
    else if k < 62 then (('0' as int) + k - 52) as char
    else if k == 62 then '+'
    else '/'
  }

  /** The 6-bit group a character of the alphabet stands for. */
  function SextetValue(c: char): (r: Option<nat>)
    ensures r.Some? ==> r.value < 64
  {
    if 'A' <= c <= 'Z' then Some(c as int - 'A' as int)
    else if 'a' <= c <= 'z' then Some(c as int - 'a' as int + 26)
    else if '0' <= c <= '9' then Some(c as int - '0' as int + 52)
    else if c == '+' then Some(62)
    else if c == '/' then Some(63)
    else None
  }

  predicate InAlphabet(c: char) {
    SextetValue(c).Some?
  }

  lemma SextetRoundTrip(k: int)
    requires 0 <= k < 64
    ensures SextetValue(Sextet(k)) == Some(k)
  {
  }

  /** The four characters of a full group of three bytes. */
  function Quad(a: Byte, b: Byte, c: Byte): string {
    [Sextet(a / 4), Sextet((a % 4) * 16 + b / 16), Sextet((b % 16) * 4 + c / 64), Sextet(c % 64)]
  }

  /** Three bytes (fewer at the end, padded with '=') become four characters. */
  function Encode(b: seq<Byte>): (r: string)
    decreases |b|
  {
    if |b| == 0 then ""
    else if |b| == 1 then
      [Sextet(b[0] / 4), Sextet((b[0] % 4) * 16), '=', '=']
    else if |b| == 2 then
      [Sextet(b[0] / 4), Sextet((b[0] % 4) * 16 + b[1] / 16), Sextet((b[1] % 16) * 4), '=']
    else
      Quad(b[0], b[1], b[2]) + Encode(b[3..])
  }

  function Decode(s: string): (r: Option<seq<Byte>>)
    decreases |s|
  {
    if |s| == 0 then Some([])
    else if |s| < 4 then None
    else
      var w, x, y, z := SextetValue(s[0]), SextetValue(s[1]), SextetValue(s[2]), SextetValue(s[3]);
      if w.None? || x.None? then None
      else if |s| == 4 && s[2] == '=' && s[3] == '=' then
        Some([w.value * 4 + x.value / 16])
      else if y.None? then None
      else if |s| == 4 && s[3] == '=' then
        Some([w.value * 4 + x.value / 16, (x.value % 16) * 16 + y.value / 4])
      else if z.None? then None
      else match Decode(s[4..])
        case None => None
        case Some(rest) =>
          Some([w.value * 4 + x.value / 16, (x.value % 16) * 16 + y.value / 4, (y.value % 4) * 64 + z.value] + rest)
  }

  /** The arithmetic of one group: the four 6-bit values of three bytes give
      the three bytes back. */
  lemma GroupRoundTrip(a: Byte, b: Byte, c: Byte)
    ensures var x, y := (a % 4) * 16 + b / 16, (b % 16) * 4 + c / 64;
            && (a / 4) * 4 + x / 16 == a
            && (x % 16) * 16 + y / 4 == b
            && (y % 4) * 64 + c % 64 == c
  {
    var x, y := (a % 4) * 16 + b / 16, (b % 16) * 4 + c / 64;
    assert x / 16 == a % 4 && x % 16 == b / 16;
    assert y / 4 == b % 16 && y % 4 == c / 64;
  }

  /** The encoding has four characters for every started group of three bytes. */
  lemma {:induction false} EncodeLength(b: seq<Byte>)
    ensures |Encode(b)| == 4 * ((|b| + 2) / 3)
    decreases |b|
  {
    if |b| >= 3 {
      EncodeLength(b[3..]);
      var n := |b[3..]|;
      assert |Encode(b)| == 4 + |Encode(b[3..])|;
      assert (n + 3 + 2) / 3 == (n + 2) / 3 + 1;
    }
  }

  /** Every character of the encoding is in the alphabet or is the pad '=',
      and padding only ever ends the encoding. */
  lemma {:induction false} EncodeAlphabet(b: seq<Byte>)
    ensures forall i :: 0 <= i < |Encode(b)| ==> InAlphabet(Encode(b)[i]) || Encode(b)[i] == '='
    ensures forall i :: 0 <= i < |Encode(b)| - 2 ==> InAlphabet(Encode(b)[i])
    decreases |b|
  {
    if |b| >= 3 {
      EncodeAlphabet(b[3..]);
      var g := Encode(b)[..4];
      forall k | 0 <= k < 4 ensures InAlphabet(g[k]) {
        var v := [b[0] / 4, (b[0] % 4) * 16 + b[1] / 16, (b[1] % 16) * 4 + b[2] / 64, b[2] % 64];
        SextetRoundTrip(v[k]);
      }
      if |b| == 3 {
        assert Encode(b) == g;
      }
    } else if |b| > 0 {
      SextetRoundTrip(b[0] / 4);
      if |b| == 1 {
        SextetRoundTrip((b[0] % 4) * 16);
      } else {
        SextetRoundTrip((b[0] % 4) * 16 + b[1] / 16);
        SextetRoundTrip((b[1] % 16) * 4);
      }
    }
  }

  lemma DecodeOneByte(a: Byte)
    ensures Decode(Encode([a])) == Some([a])
  {
    SextetRoundTrip(a / 4);
    SextetRoundTrip((a % 4) * 16);
    GroupRoundTrip(a, 0, 0);
  }

  lemma DecodeTwoBytes(a: Byte, b: Byte)
    ensures Decode(Encode([a, b])) == Some([a, b])
  {
    var x, y := (a % 4) * 16 + b / 16, (b % 16) * 4;
    SextetRoundTrip(a / 4);
    SextetRoundTrip(x);
    SextetRoundTrip(y);
    GroupRoundTrip(a, b, 0);
    var s := Encode([a, b]);
    assert s == [Sextet(a / 4), Sextet(x), Sextet(y), '='];
    assert s[2] != '=';
  }

  /** Decoding a full group in front of an encoding that decodes to rest. */
  lemma DecodeGroup(a: Byte, b: Byte, c: Byte, t: string, rest: seq<Byte>)
    requires Decode(t) == Some(rest)
    ensures Decode(Quad(a, b, c) + t) == Some([a, b, c] + rest)
  {
    var x, y := (a % 4) * 16 + b / 16, (b % 16) * 4 + c / 64;
    SextetRoundTrip(a / 4);
    SextetRoundTrip(x);
    SextetRoundTrip(y);
    SextetRoundTrip(c % 64);
    GroupRoundTrip(a, b, c);
    var s := Quad(a, b, c) + t;
    assert s[4..] == t;
    assert s[3] != '=' && s[2] != '=';
  }

  /** Decoding an encoding gives back the bytes. */
  lemma {:induction false} DecodeEncode(b: seq<Byte>)
    ensures Decode(Encode(b)) == Some(b)
    decreases |b|
  {
    if |b| == 1 {
      assert b == [b[0]];
      DecodeOneByte(b[0]);
    } else if |b| == 2 {
      assert b == [b[0], b[1]];
      DecodeTwoBytes(b[0], b[1]);
    } else if |b| >= 3 {
      var t, rest := Encode(b[3..]), b[3..];
      DecodeEncode(rest);
      EncodeFirstGroup(b);
      DecodeFirstGroup(b, t, rest);
    }
  }

  /** A full first group is encoded on its own. */
  lemma EncodeFirstGroup(b: seq<Byte>)
    requires |b| >= 3
    ensures Encode(b) == Quad(b[0], b[1], b[2]) + Encode(b[3..])
  {
  }

  /** A full first group decodes back when the rest does. */
  lemma DecodeFirstGroup(b: seq<Byte>, t: string, rest: seq<Byte>)
    requires |b| >= 3 && rest == b[3..] && Decode(t) == Some(rest)
    requires Encode(b) == Quad(b[0], b[1], b[2]) + t
    ensures Decode(Encode(b)) == Some(b)
  {
    DecodeGroup(b[0], b[1], b[2], t, rest);
    assert [b[0], b[1], b[2]] + rest == b;
  }
}
