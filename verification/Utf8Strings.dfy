/**
 What the structural check of strings accepts: exactly the encodings of sequences of Unicode scalar values, with the
 encoding written down from the bit layout in section 3 of RFC 3629.
 */
module Utf8Strings {
  import opened Common
  import opened Varint
  import opened MessageValues

  /** A Unicode scalar value: a code point that is not a surrogate. */
  predicate Scalar(c: nat) {
    c <= 0x10FFFF && !(0xD800 <= c <= 0xDFFF)
  }

  /** One to four bytes: a lead byte with the high bits, and six bits in each byte behind it. */
  function EncodeScalar(c: nat): (s: seq<Byte>)
    requires Scalar(c)
  {
    if c < 0x80 then [c]
    else if c < 0x800 then [0xC0 + c / 64, 0x80 + c % 64]
    else if c < 0x1_0000 then [0xE0 + c / 4096, 0x80 + c / 64 % 64, 0x80 + c % 64]
    else [0xF0 + c / 262144, 0x80 + c / 4096 % 64, 0x80 + c / 64 % 64, 0x80 + c % 64]
  }

  predicate AllScalar(cs: seq<nat>) {
    forall i :: 0 <= i < |cs| ==> Scalar(cs[i])
  }

  function EncodeText(cs: seq<nat>): seq<Byte>
    requires AllScalar(cs)
  {
    if cs == [] then [] else EncodeScalar(cs[0]) + EncodeText(cs[1..])
  }

  ghost predicate IsText(s: seq<Byte>, cs: seq<nat>) {
    AllScalar(cs) && s == EncodeText(cs)
  }

  /** The bits read so far, and the six bits of one more byte. */
  function More(high: int, byte: int): int {
    high * 64 + (byte - 0x80)
  }

  function Two(lead: int, b: int): int {
    More(lead - 0xC0, b)
  }

  function Three(lead: int, b: int, c: int): int {
    More(More(lead - 0xE0, b), c)
  }

  function Four(lead: int, b: int, c: int, d: int): int {
    More(More(More(lead - 0xF0, b), c), d)
  }

  lemma MoreParts(high: int, byte: int)
    requires 0x80 <= byte < 0xC0
    ensures More(high, byte) / 64 == high && More(high, byte) % 64 == byte - 0x80
  {
  }

  lemma QuotientsNest(c: nat)
    ensures c / 4096 == c / 64 / 64 && c / 262144 == c / 4096 / 64
  {
  }

  lemma TwoIsScalar(s: seq<Byte>)
    requires CharLength(s) == 2
    ensures var c := Two(s[0], s[1]); 0 <= c && Scalar(c) && s[..2] == EncodeScalar(c)
  {
    MoreParts(s[0] - 0xC0, s[1]);
  }

  lemma ThreeIsScalar(s: seq<Byte>)
    requires CharLength(s) == 3
    ensures var c := Three(s[0], s[1], s[2]); 0 <= c && Scalar(c) && s[..3] == EncodeScalar(c)
  {
    var lead: int := s[0] - 0xE0;
    MoreParts(lead, s[1]);
    MoreParts(More(lead, s[1]), s[2]);
    QuotientsNest(Three(s[0], s[1], s[2]));
  }

  lemma FourIsScalar(s: seq<Byte>)
    requires CharLength(s) == 4
    ensures var c := Four(s[0], s[1], s[2], s[3]); 0 <= c && Scalar(c) && s[..4] == EncodeScalar(c)
  {
    var lead: int := s[0] - 0xF0;
    MoreParts(lead, s[1]);
    MoreParts(More(lead, s[1]), s[2]);
    MoreParts(More(More(lead, s[1]), s[2]), s[3]);
    QuotientsNest(Four(s[0], s[1], s[2], s[3]));
  }

  /** A character that the check recognises is the encoding of a scalar value. */
  lemma FirstIsScalar(s: seq<Byte>) returns (c: nat)
    requires 0 < CharLength(s)
    ensures Scalar(c) && s[..CharLength(s)] == EncodeScalar(c)
  {
    var n := CharLength(s);
    if n == 1 {
      c := s[0];
    } else if n == 2 {
      TwoIsScalar(s);
      c := Two(s[0], s[1]);
    } else if n == 3 {
      ThreeIsScalar(s);
      c := Three(s[0], s[1], s[2]);
    } else {
      FourIsScalar(s);
      c := Four(s[0], s[1], s[2], s[3]);
    }
  }

  /** The encoding of a scalar value is one character, whatever follows it. */
  lemma ScalarIsFirst(c: nat, t: seq<Byte>)
    requires Scalar(c)
    ensures CharLength(EncodeScalar(c) + t) == |EncodeScalar(c)| > 0
  {
    var s := EncodeScalar(c) + t;
    if 0x800 <= c < 0x1_0000 {
      assert s[0] == 0xE0 + c / 4096 && s[1] == 0x80 + c / 64 % 64;
      assert c / 4096 == c / 64 / 64;
    } else if 0x1_0000 <= c {
      assert s[0] == 0xF0 + c / 262144 && s[1] == 0x80 + c / 4096 % 64;
      assert c / 262144 == c / 4096 / 64;
    }
  }

  lemma {:induction false} TextIsUtf8(cs: seq<nat>)
    requires AllScalar(cs)
    ensures Utf8(EncodeText(cs))
  {
    if cs != [] {
      var first, rest := EncodeScalar(cs[0]), EncodeText(cs[1..]);
      ScalarIsFirst(cs[0], rest);
      assert (first + rest)[|first|..] == rest;
      TextIsUtf8(cs[1..]);
    }
  }

  lemma {:induction false} Utf8IsText(s: seq<Byte>) returns (cs: seq<nat>)
    requires Utf8(s)
    ensures IsText(s, cs)
    decreases |s|
  {
    if s == [] {
      cs := [];
    } else {
      var n := CharLength(s);
      var c := FirstIsScalar(s);
      var rest := Utf8IsText(s[n..]);
      cs := [c] + rest;
      assert cs[1..] == rest && s == s[..n] + s[n..];
    }
  }

  /** A string is accepted if and only if it encodes some sequence of Unicode scalar values. */
  lemma Utf8Exact(s: seq<Byte>)
    ensures Utf8(s) <==> exists cs :: IsText(s, cs)
  {
    if Utf8(s) {
      var cs := Utf8IsText(s);
    }
    forall cs | IsText(s, cs)
      ensures Utf8(s)
    {
      TextIsUtf8(cs);
    }
  }
}
