/** What the byte tables of utf8.Valid stand for: the encoding of section 3 of RFC 3629. */
module Runes {
  import opened Common
  import opened Lines

  /** A code point that is not one half of a surrogate pair. */
  predicate IsScalar(c: int) {
    0 <= c < 0xd800 || 0xe000 <= c <= 0x10ffff
  }

  function ByteOf(n: int): Byte
    requires 0 <= n < 256
  {
    n as char
  }

  /** The last six bits above the lowest `shift` values of a code point, marked as a continuation. */
  function Tail(c: int, shift: int): Byte
    requires c >= 0 && shift > 0
  {
    ByteOf(0x80 + c / shift % 64)
  }

  /** The shortest form, and the only one. */
  function EncodeRune(c: int): (s: Bytes)
    requires IsScalar(c)
    ensures |s| > 0
  {
    if c < 0x80 then [ByteOf(c)]
    else if c < 0x800 then [ByteOf(0xc0 + c / 0x40), Tail(c, 1)]
    else if c < 0x1_0000 then [ByteOf(0xe0 + c / 0x1000), Tail(c, 0x40), Tail(c, 1)]
    else [ByteOf(0xf0 + c / 0x4_0000), Tail(c, 0x1000), Tail(c, 0x40), Tail(c, 1)]
  }

  function EncodeRunes(cs: seq<int>): Bytes
    requires forall i | 0 <= i < |cs| :: IsScalar(cs[i])
  {
    if cs == [] then "" else EncodeRune(cs[0]) + EncodeRunes(cs[1..])
  }

  ghost predicate EncodesSome(s: Bytes) {
    exists cs: seq<int> :: Encodes(s, cs)
  }

  predicate Encodes(s: Bytes, cs: seq<int>) {
    (forall i | 0 <= i < |cs| :: IsScalar(cs[i])) && s == EncodeRunes(cs)
  }

  /** The code point the first bytes of a well-formed string encode. */
  function FirstRune(s: Bytes): int
    requires RuneLength(s) > 0
  {
    var n := RuneLength(s);
    if n == 1 then s[0] as int
    else if n == 2 then (s[0] as int - 0xc0) * 0x40 + (s[1] as int - 0x80)
    else if n == 3 then (s[0] as int - 0xe0) * 0x1000 + (s[1] as int - 0x80) * 0x40 + (s[2] as int - 0x80)
    else (s[0] as int - 0xf0) * 0x4_0000 + (s[1] as int - 0x80) * 0x1000 + (s[2] as int - 0x80) * 0x40
         + (s[3] as int - 0x80)
  }

  lemma TwoDigits(a: nat, b: nat)
    requires b < 64
    ensures var c := a * 0x40 + b; c / 0x40 == a && c / 1 % 64 == b
  {
  }

  lemma ThreeDigits(a: nat, b: nat, d: nat)
    requires b < 64 && d < 64
    ensures var c := a * 0x1000 + b * 0x40 + d; c / 0x1000 == a && c / 0x40 % 64 == b && c / 1 % 64 == d
  {
    assert (a * 0x1000 + b * 0x40 + d) / 0x40 == a * 64 + b;
  }

  lemma FourDigits(a: nat, b: nat, d: nat, e: nat)
    requires b < 64 && d < 64 && e < 64
    ensures var c := a * 0x4_0000 + b * 0x1000 + d * 0x40 + e;
      c / 0x4_0000 == a && c / 0x1000 % 64 == b && c / 0x40 % 64 == d && c / 1 % 64 == e
  {
    var c := a * 0x4_0000 + b * 0x1000 + d * 0x40 + e;
    assert c / 0x40 == a * 0x1000 + b * 0x40 + d;
    assert c / 0x1000 == a * 64 + b;
  }

  lemma TwoByteRune(s: Bytes)
    requires RuneLength(s) == 2
    ensures IsScalar(FirstRune(s)) && EncodeRune(FirstRune(s)) == s[..2]
  {
    TwoDigits(s[0] as int - 0xc0, s[1] as int - 0x80);
  }

  lemma ThreeByteRune(s: Bytes)
    requires RuneLength(s) == 3
    ensures IsScalar(FirstRune(s)) && EncodeRune(FirstRune(s)) == s[..3]
  {
    ThreeDigits(s[0] as int - 0xe0, s[1] as int - 0x80, s[2] as int - 0x80);
  }

  lemma FourByteRune(s: Bytes)
    requires RuneLength(s) == 4
    ensures IsScalar(FirstRune(s)) && EncodeRune(FirstRune(s)) == s[..4]
  {
    FourDigits(s[0] as int - 0xf0, s[1] as int - 0x80, s[2] as int - 0x80, s[3] as int - 0x80);
  }

  lemma FirstRuneIsEncoded(s: Bytes)
    requires RuneLength(s) > 0
    ensures IsScalar(FirstRune(s)) && EncodeRune(FirstRune(s)) == s[..RuneLength(s)]
  {
    match RuneLength(s)
    case 2 => TwoByteRune(s);
    case 3 => ThreeByteRune(s);
    case 4 => FourByteRune(s);
    case _ =>
  }

  lemma WideRuneIsFirst(c: int, rest: Bytes)
    requires 0x1_0000 <= c <= 0x10ffff
    ensures RuneLength(EncodeRune(c) + rest) == 4
  {
    assert 0x90 <= 0x80 + c / 0x1000 % 64 || c / 0x4_0000 > 0;
  }

  lemma EncodedRuneIsFirst(c: int, rest: Bytes)
    requires IsScalar(c)
    ensures RuneLength(EncodeRune(c) + rest) == |EncodeRune(c)|
  {
    if c >= 0x1_0000 {
      WideRuneIsFirst(c, rest);
    } else if c >= 0x800 {
      assert c / 0x1000 == 0 ==> c / 0x40 % 64 >= 0x20;
      assert c / 0x1000 == 0xd ==> c / 0x40 % 64 < 0x20;
    }
  }

  lemma SplitFirstRune(s: Bytes) returns (first: Bytes, rest: Bytes, c: int)
    requires s != "" && Utf8(s)
    ensures s == first + rest && |rest| < |s| && Utf8(rest) && IsScalar(c) && first == EncodeRune(c)
  {
    FirstRuneIsEncoded(s);
    first, rest, c := s[..RuneLength(s)], s[RuneLength(s)..], FirstRune(s);
  }

  /** The byte order mark is U+FEFF. */
  lemma BomIsEncoded(s: Bytes)
    ensures StartsWithBom(s) <==> EncodeRune(0xfeff) <= s
  {
    assert EncodeRune(0xfeff) == [ByteOf(0xef), ByteOf(0xbb), ByteOf(0xbf)];
  }

  lemma OneRuneMore(first: Bytes, c: int, rest: Bytes, cs: seq<int>)
    requires IsScalar(c) && first == EncodeRune(c) && Encodes(rest, cs)
    ensures Encodes(first + rest, [c] + cs)
  {
    assert ([c] + cs)[1..] == cs;
  }

  lemma {:induction false} Utf8Decodes(s: Bytes) returns (cs: seq<int>)
    requires Utf8(s)
    ensures Encodes(s, cs)
    decreases |s|
  {
    if s == "" {
      return [];
    }
    var first, rest, c := SplitFirstRune(s);
    var more := Utf8Decodes(rest);
    OneRuneMore(first, c, rest, more);
    cs := [c] + more;
  }

  lemma {:induction false} EncodedIsUtf8(cs: seq<int>)
    requires forall i | 0 <= i < |cs| :: IsScalar(cs[i])
    ensures Utf8(EncodeRunes(cs))
  {
    if cs != [] {
      var first, rest := EncodeRune(cs[0]), EncodeRunes(cs[1..]);
      EncodedIsUtf8(cs[1..]);
      EncodedRuneIsFirst(cs[0], rest);
      assert (first + rest)[|first|..] == rest;
    }
  }

  /** A string is accepted as UTF-8 exactly if it is the encoding of some code points. */
  lemma Utf8IsEncoded(s: Bytes)
    ensures Utf8(s) <==> EncodesSome(s)
  {
    if Utf8(s) {
      var cs := Utf8Decodes(s);
    }
    if cs: seq<int> :| Encodes(s, cs) {
      EncodedIsUtf8(cs);
    }
  }
}
