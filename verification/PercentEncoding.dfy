/**
 The percent-encoding of object keys and query values, awsURIEncode and encodePath
 of internal/cache/s3/client.go:873-909, over bytes.
 */
module PercentEncoding {
  import Text
  import opened Wrappers

  type Byte = b: int | 0 <= b < 256 witness 0

  const SLASH: Byte := 47
  const PERCENT: Byte := 37

  // Section 2.3 of RFC 3986.
  predicate Unreserved(c: Byte) {
    65 <= c <= 90 || 97 <= c <= 122 || 48 <= c <= 57 || c == 45 || c == 46 || c == 95 || c == 126
  }

  /** Those are the letters, the digits and four marks. */
  lemma UnreservedAre(c: Byte)
    ensures var ch := c as char;
            Unreserved(c) <==> 'A' <= ch <= 'Z' || 'a' <= ch <= 'z' || '0' <= ch <= '9' || ch in "-._~"
  {
    var marks := "-._~";
    assert marks[0] == '-' && marks[1] == '.' && marks[2] == '_' && marks[3] == '~';
  }

  predicate Literal(c: Byte, encodeSlash: bool) { Unreserved(c) || (c == SLASH && !encodeSlash) }

  function UpperHex(d: int): Byte
    requires 0 <= d < 16
  {
    if d < 10 then 48 + d else 55 + d
  }

  function EncodeByte(c: Byte, encodeSlash: bool): seq<Byte> {
    if Literal(c, encodeSlash) then [c] else [PERCENT, UpperHex(c / 16), UpperHex(c % 16)]
  }

  function Encode(s: seq<Byte>, encodeSlash: bool): seq<Byte> {
    if s == [] then [] else EncodeByte(s[0], encodeSlash) + Encode(s[1..], encodeSlash)
  }

  // awsURIEncode: one pass over the bytes into a builder.
  method AwsURIEncode(s: seq<Byte>, encodeSlash: bool) returns (b: seq<Byte>)
    ensures b == Encode(s, encodeSlash)
  {
    b := [];
    assert s[0..] == s;
    for i := 0 to |s|
      invariant b + Encode(s[i..], encodeSlash) == Encode(s, encodeSlash)
    {
      var c := s[i];
      assert s[i..][1..] == s[i + 1..];
      ghost var before, rest := b, Encode(s[i + 1..], encodeSlash);
      if Unreserved(c) || (c == SLASH && !encodeSlash) {
        b := b + [c];
      } else {
        b := b + [PERCENT, UpperHex(c / 16), UpperHex(c % 16)];
      }
      assert b == before + EncodeByte(c, encodeSlash);
      Regroup(before, EncodeByte(c, encodeSlash), rest);
    }
    assert s[|s|..] == [];
  }

  lemma Regroup(a: seq<Byte>, b: seq<Byte>, c: seq<Byte>)
    ensures a + b + c == a + (b + c)
  {}

  // ---------------------------------------------------------- decoding

  // A hexadecimal digit of either case.
  function HexValue(c: Byte): Option<int> {
    if 48 <= c <= 57 then Some(c - 48)
    else if 65 <= c <= 70 then Some(c - 55)
    else if 97 <= c <= 102 then Some(c - 87)
    else None
  }

  // Section 2.1 of RFC 3986; None for a percent sign without two digits.
  function Decode(t: seq<Byte>): Option<seq<Byte>> {
    if t == [] then Some([])
    else if t[0] != PERCENT then
      var rest := Decode(t[1..]);
      if rest.None? then None else Some([t[0]] + rest.value)
    else if |t| < 3 || HexValue(t[1]).None? || HexValue(t[2]).None? then None
    else
      var c: int := 16 * HexValue(t[1]).value + HexValue(t[2]).value;
      var rest := Decode(t[3..]);
      if rest.None? then None else Some([c] + rest.value)
  }

  lemma ByteDigits(c: Byte)
    ensures HexValue(UpperHex(c / 16)) == Some(c / 16) && HexValue(UpperHex(c % 16)) == Some(c % 16)
    ensures 16 * (c / 16) + c % 16 == c
  {}

  /** Decoding gives back what was encoded, for every byte string, slashes encoded
      or not. */
  lemma {:induction false} DecodeEncode(s: seq<Byte>, encodeSlash: bool)
    ensures Decode(Encode(s, encodeSlash)) == Some(s)
  {
    if s != [] {
      var c, rest := s[0], Encode(s[1..], encodeSlash);
      var t := Encode(s, encodeSlash);
      DecodeEncode(s[1..], encodeSlash);
      assert s == [c] + s[1..];
      if Literal(c, encodeSlash) {
        assert t[1..] == rest;
      } else {
        ByteDigits(c);
        assert t[3..] == rest;
      }
    }
  }

  /** So no two byte strings are encoded alike. */
  lemma EncodeIsInjective(a: seq<Byte>, b: seq<Byte>, encodeSlash: bool)
    requires Encode(a, encodeSlash) == Encode(b, encodeSlash)
    ensures a == b
  {
    DecodeEncode(a, encodeSlash);
    DecodeEncode(b, encodeSlash);
  }

  // ------------------------------------------------- what encodings are

  predicate UpperHexDigit(c: Byte) { 48 <= c <= 57 || 65 <= c <= 70 }

  // Literal bytes, and uppercase triplets of the others.
  predicate Canonical(t: seq<Byte>, encodeSlash: bool) {
    if t == [] then true
    else if t[0] != PERCENT then Literal(t[0], encodeSlash) && Canonical(t[1..], encodeSlash)
    else
      && |t| >= 3 && UpperHexDigit(t[1]) && UpperHexDigit(t[2])
      && !Literal(16 * HexValue(t[1]).value + HexValue(t[2]).value, encodeSlash)
      && Canonical(t[3..], encodeSlash)
  }

  /** Encodings are exactly the canonical texts: every output is one, and every one
      is the encoding of what it decodes to. */
  lemma {:induction false} EncodingIsCanonical(s: seq<Byte>, encodeSlash: bool)
    ensures Canonical(Encode(s, encodeSlash), encodeSlash)
  {
    if s != [] {
      var t := Encode(s, encodeSlash);
      EncodingIsCanonical(s[1..], encodeSlash);
      if Literal(s[0], encodeSlash) {
        assert t[1..] == Encode(s[1..], encodeSlash);
      } else {
        ByteDigits(s[0]);
        assert t[3..] == Encode(s[1..], encodeSlash);
      }
    }
  }

  lemma {:induction false} EncodeDecode(t: seq<Byte>, encodeSlash: bool)
    requires Canonical(t, encodeSlash)
    ensures Decode(t).Some? && Encode(Decode(t).value, encodeSlash) == t
  {
    if t != [] {
      if t[0] != PERCENT {
        EncodeDecode(t[1..], encodeSlash);
        var rest := Decode(t[1..]).value;
        assert ([t[0]] + rest)[1..] == rest;
      } else {
        EncodeDecode(t[3..], encodeSlash);
        var c := 16 * HexValue(t[1]).value + HexValue(t[2]).value;
        var rest := Decode(t[3..]).value;
        assert ([c] + rest)[1..] == rest;
        assert t == [t[0], t[1], t[2]] + t[3..];
      }
    }
  }

  // --------------------------------------------------------- whole paths

  function Encodings(parts: seq<seq<Byte>>, encodeSlash: bool): seq<seq<Byte>> {
    if parts == [] then [] else [Encode(parts[0], encodeSlash)] + Encodings(parts[1..], encodeSlash)
  }

  /** A path encoded with its slashes kept splits into its encoded segments; with
      them encoded it is one segment. */
  lemma {:induction false} SegmentsAreEncoded(s: seq<Byte>)
    ensures Text.Split(SLASH, Encode(s, false)) == Encodings(Text.Split(SLASH, s), true)
    ensures Text.Split(SLASH, Encode(s, true)) == [Encode(s, true)]
  {
    NoSlashLeft(s);
    Text.SplitWord(SLASH, Encode(s, true));
    if s != [] {
      var c, rest := s[0], Text.Split(SLASH, s[1..]);
      SegmentsAreEncoded(s[1..]);
      var t := Encode(s, false);
      if c == SLASH {
        assert t[1..] == Encode(s[1..], false);
        assert ([[]] + rest)[1..] == rest;
      } else {
        EncodedPrefix(EncodeByte(c, false), Encode(s[1..], false));
        var parts := [[c] + rest[0]] + rest[1..];
        assert ([c] + rest[0])[1..] == rest[0] && parts[1..] == rest[1..];
        assert EncodeByte(c, true) == EncodeByte(c, false);
      }
    }
  }

  lemma {:induction false} EncodedPrefix(head: seq<Byte>, s: seq<Byte>)
    requires SLASH !in head
    ensures Text.Split(SLASH, head + s) == [head + Text.Split(SLASH, s)[0]] + Text.Split(SLASH, s)[1..]
  {
    var parts := Text.Split(SLASH, s);
    if head == [] {
      assert head + s == s && head + parts[0] == parts[0];
    } else {
      assert (head + s)[1..] == head[1..] + s;
      EncodedPrefix(head[1..], s);
      assert [head[0]] + (head[1..] + parts[0]) == head + parts[0];
    }
  }

  lemma {:induction false} NoSlashLeft(s: seq<Byte>)
    ensures SLASH !in Encode(s, true)
  {
    if s != [] { NoSlashLeft(s[1..]); }
  }

  // encodePath
  function EncodePath(path: seq<Byte>): seq<Byte> {
    if path == [] then [SLASH] else Encode(path, false)
  }

  /** Two paths share their encoding only when they are the same, but for the empty
      path, which is encoded as the root is. */
  lemma EncodePathCollisions(a: seq<Byte>, b: seq<Byte>)
    ensures EncodePath(a) == EncodePath(b) <==> a == b || (a in [[], [SLASH]] && b in [[], [SLASH]])
  {
    assert Encode([SLASH], false) == [SLASH] by { assert [SLASH][1..] == []; }
    if EncodePath(a) == EncodePath(b) {
      DecodeEncode(a, false);
      DecodeEncode(b, false);
      DecodeEncode([SLASH], false);
    }
  }
}
