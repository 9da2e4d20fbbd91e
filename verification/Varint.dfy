/**
 Base 128 varints: the encoding of the Protocol Buffers Encoding guide, the readers that undo it
 with one addition per byte, and the closed formula for its length.
 */
module Varint {
  import opened Common
  import opened Powers

  type Byte = b: int | 0 <= b < 256

  const TWO_TO_32: nat := 0x1_0000_0000
  const INT_MAX: nat := 0x7FFF_FFFF

  /** kSlopBytes: how far past a limit a read may go before it is noticed. */
  const SLOP: nat := 16

  /** The largest size ReadSize accepts. */
  const MAX_SIZE: nat := INT_MAX - SLOP

  // ----- what the bytes mean -----

  /** Bytes up to the first without its high bit set, if that is among the first `max`; otherwise 0. */
  function Length(s: seq<Byte>, max: nat): (n: nat)
    ensures n <= max && n <= |s|
    decreases |s|
  {
    if max == 0 || s == [] then 0
    else if s[0] < 128 then 1
    else
      var n := Length(s[1..], max - 1);
      if n == 0 then 0 else n + 1
  }

  /** The low seven bits of each byte, least significant group first. */
  function Payload(s: seq<Byte>): nat {
    if s == [] then 0 else s[0] % 128 + 128 * Payload(s[1..])
  }

  /** A 64-bit value of at most ten bytes, and how many bytes it took. */
  function Varint64(s: seq<Byte>): (r: Option<(nat, nat)>)
    ensures r.Some? ==> 0 < r.value.1 <= |s|
  {
    var n := Length(s, 10);
    if n == 0 then None else Some((Payload(s[..n]) % TWO_TO_64, n))
  }

  /** A field tag: at most five bytes, 32 bits. */
  function Tag(s: seq<Byte>): (r: Option<(nat, nat)>)
    ensures r.Some? ==> 0 < r.value.1 <= |s|
  {
    var n := Length(s, 5);
    if n == 0 then None else Some((Payload(s[..n]) % TWO_TO_32, n))
  }

  /** A size: at most five bytes, and a value that stays clear of INT_MAX. */
  function Size(s: seq<Byte>): (r: Option<(nat, nat)>)
    ensures r.Some? ==> 0 < r.value.1 <= |s|
  {
    var n := Length(s, 5);
    if n == 0 || (n == 5 && s[4] >= 8) || Payload(s[..n]) > MAX_SIZE then None else Some((Payload(s[..n]), n))
  }

  function Encode(v: nat): seq<Byte> {
    if v < 128 then [v] else [128 + v % 128] + Encode(v / 128)
  }

  function Pow128(n: nat): nat {
    if n == 0 then 1 else 128 * Pow128(n - 1)
  }

  // ----- the encoding can be read back, whatever follows it -----

  lemma {:induction false} LengthOfEncode(v: nat, t: seq<Byte>, max: nat)
    requires |Encode(v)| <= max
    ensures Length(Encode(v) + t, max) == |Encode(v)|
  {
    if v >= 128 {
      assert (Encode(v) + t)[1..] == Encode(v / 128) + t;
      LengthOfEncode(v / 128, t, max - 1);
    }
  }

  lemma {:induction false} PayloadOfEncode(v: nat)
    ensures Payload(Encode(v)) == v
  {
    if v >= 128 {
      assert Encode(v)[1..] == Encode(v / 128);
      PayloadOfEncode(v / 128);
    } else {
      assert Encode(v)[1..] == [];
    }
  }

  lemma {:induction false} EncodeShort(v: nat, n: nat)
    requires v < Pow128(n) && 0 < n
    ensures |Encode(v)| <= n
  {
    if v >= 128 {
      EncodeShort(v / 128, n - 1);
    }
  }

  lemma {:induction false} EncodeLong(v: nat, n: nat)
    requires Pow128(n) <= v
    ensures n < |Encode(v)|
  {
    if 0 < n {
      assert 1 <= Pow128(n - 1) by { Pow128Positive(n - 1); }
      EncodeLong(v / 128, n - 1);
    }
  }

  lemma {:induction false} Pow128Positive(n: nat)
    ensures 0 < Pow128(n)
  {
    if 0 < n { Pow128Positive(n - 1); }
  }

  lemma Pow128Values()
    ensures Pow128(1) == 128 && Pow128(4) == 0x1000_0000 && Pow128(5) == 0x8_0000_0000
    ensures Pow128(9) == 0x8000_0000_0000_0000 && Pow128(10) == 128 * Pow128(9)
  {
    assert Pow128(1) == 128 * Pow128(0);
    assert Pow128(2) == 128 * Pow128(1);
    assert Pow128(3) == 128 * Pow128(2);
    assert Pow128(4) == 128 * Pow128(3);
    assert Pow128(5) == 128 * Pow128(4);
    assert Pow128(6) == 128 * Pow128(5);
    assert Pow128(7) == 128 * Pow128(6);
    assert Pow128(8) == 128 * Pow128(7);
    assert Pow128(9) == 128 * Pow128(8);
  }

  lemma ReadsBack(v: nat, t: seq<Byte>, max: nat)
    requires v < Pow128(max) && 0 < max
    ensures Length(Encode(v) + t, max) == |Encode(v)| && 0 < |Encode(v)|
    ensures Payload((Encode(v) + t)[..|Encode(v)|]) == v
  {
    EncodeShort(v, max);
    LengthOfEncode(v, t, max);
    PayloadOfEncode(v);
    assert (Encode(v) + t)[..|Encode(v)|] == Encode(v);
  }

  lemma Varint64RoundTrip(v: nat, t: seq<Byte>)
    requires v < TWO_TO_64
    ensures Varint64(Encode(v) + t) == Some((v, |Encode(v)|))
  {
    Pow128Values();
    ReadsBack(v, t, 10);
  }

  lemma TagRoundTrip(v: nat, t: seq<Byte>)
    requires v < TWO_TO_32
    ensures Tag(Encode(v) + t) == Some((v, |Encode(v)|))
  {
    Pow128Values();
    ReadsBack(v, t, 5);
  }

  lemma {:induction false} LengthOfLonger(v: nat, t: seq<Byte>, max: nat)
    requires max < |Encode(v)|
    ensures Length(Encode(v) + t, max) == 0
  {
    if v >= 128 && 0 < max {
      assert (Encode(v) + t)[1..] == Encode(v / 128) + t;
      LengthOfLonger(v / 128, t, max - 1);
    }
  }

  /** Sizes up to the limit are read back; the few between it and INT_MAX, which can be written, are refused. */
  lemma SizeRoundTripIff(v: nat, t: seq<Byte>)
    ensures Size(Encode(v) + t) == if v <= MAX_SIZE then Some((v, |Encode(v)|)) else None
  {
    Pow128Values();
    if |Encode(v)| <= 5 {
      LengthOfEncode(v, t, 5);
      PayloadOfEncode(v);
      assert (Encode(v) + t)[..|Encode(v)|] == Encode(v);
      if |Encode(v)| == 5 && v <= MAX_SIZE { FifthByte(v); }
    } else {
      LengthOfLonger(v, t, 5);
      if v <= MAX_SIZE { EncodeShort(v, 5); }
    }
  }

  lemma FifthByte(v: nat)
    requires |Encode(v)| == 5 && v <= INT_MAX
    ensures Encode(v)[4] < 8
  {
    var a := v / 128;
    var b := a / 128;
    var c := b / 128;
    var d := c / 128;
    assert a < 0x100_0000;
    assert b < 0x2_0000;
    assert c < 0x400;
    assert d < 8;
    assert Encode(v) == [128 + v % 128] + Encode(a);
    assert Encode(a) == [128 + a % 128] + Encode(b);
    assert Encode(b) == [128 + b % 128] + Encode(c);
    assert Encode(c) == [128 + c % 128] + Encode(d);
    assert Encode(d) == [d];
  }

  // ----- the bytes themselves -----

  /** The value shifted right by n groups of seven bits. */
  function Shifted(v: nat, n: nat): nat {
    if n == 0 then v else Shifted(v / 128, n - 1)
  }

  /** The payload has seven bits of every byte, the first byte lowest. */
  lemma {:induction false} PayloadGroup(s: seq<Byte>, i: nat)
    requires i < |s|
    ensures Shifted(Payload(s), i) % 128 == s[i] % 128
  {
    if 0 < i {
      assert Payload(s) / 128 == Payload(s[1..]);
      PayloadGroup(s[1..], i - 1);
    }
  }

  /** Byte i of an encoding holds group i of the value, with the high bit set on all bytes but the last. */
  lemma {:induction false} EncodeByte(v: nat, i: nat)
    requires i < |Encode(v)|
    ensures Encode(v)[i] == Shifted(v, i) % 128 + (if i + 1 < |Encode(v)| then 128 else 0)
    ensures i + 1 == |Encode(v)| ==> Shifted(v, i) < 128
  {
    if 0 < i { EncodeByte(v / 128, i - 1); }
  }

  /** The examples of the Encoding guide. */
  lemma GuideVarints()
    ensures Encode(1) == [0x01] && Encode(150) == [0x96, 0x01]
  {
    assert Encode(1) == [0x01];
  }

  /** What the readers make of any bytes, of minimal length or not: `n` bytes up to the first below 128. */
  lemma ReadersStopAt(s: seq<Byte>, n: nat)
    requires 0 < n <= |s| && s[n - 1] < 128 && forall k :: 0 <= k < n - 1 ==> s[k] >= 128
    ensures Varint64(s) == if n <= 10 then Some((Payload(s[..n]) % TWO_TO_64, n)) else None
    ensures Tag(s) == if n <= 5 then Some((Payload(s[..n]) % TWO_TO_32, n)) else None
    ensures Size(s) == if n <= 5 && !(n == 5 && s[4] >= 8) && Payload(s[..n]) <= MAX_SIZE
                       then Some((Payload(s[..n]), n)) else None
  {
    LengthWhile(s, if n <= 10 then n - 1 else 10, 10);
    LengthWhile(s, if n <= 5 then n - 1 else 5, 5);
  }

  /** Bytes that go on to the end are no number. */
  lemma ReadersNeedAnEnd(s: seq<Byte>)
    requires forall k :: 0 <= k < |s| ==> s[k] >= 128
    ensures Varint64(s) == None && Tag(s) == None && Size(s) == None
  {
    LengthWhile(s, if |s| <= 10 then |s| else 10, 10);
    LengthWhile(s, if |s| <= 5 then |s| else 5, 5);
  }

  // ----- the length of an encoding -----

  /** Bits::Log2FloorNonZero(v | 1) */
  function Log2(v: nat): nat {
    if v < 2 then 0 else 1 + Log2(v / 2)
  }

  /** CodedOutputStream::VarintSize64, and VarintSize32 on 32-bit values: a division by 7 done by multiplying. */
  function VarintSize(v: nat): nat {
    (Log2(v) * 9 + 73) / 64
  }

  /** VarintSize64PlusOne */
  function VarintSizePlusOne(v: nat): nat {
    (Log2(v) * 9 + 73 + 64) / 64
  }

  lemma Log2By7(v: nat)
    requires 128 <= v
    ensures Log2(v) == 7 + Log2(v / 128)
  {
    var a := v / 2;
    var b := a / 2;
    var c := b / 2;
    var d := c / 2;
    var e := d / 2;
    var f := e / 2;
    assert a >= 64;
    assert b >= 32;
    assert c >= 16;
    assert d >= 8;
    assert e >= 4;
    assert f >= 2;
    assert Log2(v) == 1 + Log2(a) && Log2(a) == 1 + Log2(b) && Log2(b) == 1 + Log2(c);
    assert Log2(c) == 1 + Log2(d) && Log2(d) == 1 + Log2(e) && Log2(e) == 1 + Log2(f) && Log2(f) == 1 + Log2(f / 2);
    assert f / 2 == v / 128;
  }

  lemma {:induction false} EncodeLength(v: nat)
    ensures |Encode(v)| == Log2(v) / 7 + 1
  {
    if v >= 128 {
      Log2By7(v);
      EncodeLength(v / 128);
    } else {
      SmallLog2(v, 7);
    }
  }

  lemma {:induction false} SmallLog2(v: nat, n: nat)
    requires v < Pow2(n) && 0 < n
    ensures Log2(v) < n
  {
    if v >= 2 { SmallLog2(v / 2, n - 1); }
  }

  /** The closed formula is the exact length, for every 64-bit value. */
  lemma VarintSizeExact(v: nat)
    requires v < TWO_TO_64
    ensures VarintSize(v) == |Encode(v)| && VarintSizePlusOne(v) == |Encode(v)| + 1
  {
    Pow2Of64();
    SmallLog2(v, 64);
    EncodeLength(v);
    NineSixtyFourths(Log2(v));
  }

  lemma NineSixtyFourths(n: nat)
    requires n < 64
    ensures (n * 9 + 73) / 64 == n / 7 + 1
  {
  }

  // ----- the readers -----

  /** The first i bytes all have their high bit set. */
  predicate Continues(s: seq<Byte>, p: nat, i: nat)
    requires p + i <= |s|
  {
    forall k :: p <= k < p + i ==> s[k] >= 128
  }

  lemma {:induction false} LengthWhile(s: seq<Byte>, i: nat, max: nat)
    requires i <= |s| && i <= max && Continues(s, 0, i)
    ensures i < |s| && i < max && s[i] < 128 ==> Length(s, max) == i + 1
    ensures i == |s| || i == max ==> Length(s, max) == 0
    decreases i
  {
    if i > 0 { LengthWhile(s[1..], i - 1, max - 1); }
  }

  /** What the bytes read so far amount to, when a reader that starts at p stops after `i` bytes or goes on. */
  lemma LengthAt(s: seq<Byte>, p: nat, end: nat, i: nat, max: nat)
    requires p + i <= end <= |s| && i <= max && Continues(s, p, i)
    ensures p + i < end && i < max && s[p + i] < 128 ==> Length(s[p..end], max) == i + 1
    ensures p + i == end || i == max ==> Length(s[p..end], max) == 0
  {
    LengthWhile(s[p..end], i, max);
  }

  lemma {:induction false} PayloadPush(s: seq<Byte>, b: Byte)
    ensures Payload(s + [b]) == Payload(s) + b % 128 * Pow128(|s|)
  {
    if s == [] {
      assert [b][1..] == [] && s + [b] == [b];
    } else {
      assert (s + [b])[1..] == s[1..] + [b];
      PayloadPush(s[1..], b);
    }
  }

  lemma PayloadNext(s: seq<Byte>, p: nat, i: nat)
    requires p + i < |s|
    ensures Payload(s[p..p + i + 1]) == Payload(s[p..p + i]) + s[p + i] % 128 * Pow128(i)
  {
    assert s[p..p + i + 1] == s[p..p + i] + [s[p + i]];
    PayloadPush(s[p..p + i], s[p + i]);
  }

  /** The running sum: the payload so far plus the continuation bit of the last byte. */
  function Sum(s: seq<Byte>, p: nat, i: nat): nat
    requires p + i <= |s|
  {
    Payload(s[p..p + i]) + Pow128(i)
  }

  /** Adding (byte - 1) shifted by 7 * i cancels the last continuation bit, and puts in the next. */
  lemma SumNext(s: seq<Byte>, p: nat, i: nat)
    requires p + i < |s|
    ensures Sum(s, p, i) + (s[p + i] - 1) * Pow128(i) ==
            if s[p + i] < 128 then Payload(s[p..p + i + 1]) else Sum(s, p, i + 1)
  {
    PayloadNext(s, p, i);
    ShiftedByte(s[p + i], Pow128(i));
  }

  lemma ShiftedByte(b: Byte, w: nat)
    ensures b < 128 ==> w + (b - 1) * w == b % 128 * w
    ensures b >= 128 ==> w + (b - 1) * w == b % 128 * w + 128 * w
  {
    assert b >= 128 ==> b == b % 128 + 128;
  }

  lemma AddMod64(a: int, b: int)
    ensures (a % TWO_TO_64 + b) % TWO_TO_64 == (a + b) % TWO_TO_64
  {
  }

  lemma AddMod32(a: int, b: int)
    ensures (a % TWO_TO_32 + b) % TWO_TO_32 == (a + b) % TWO_TO_32
  {
  }

  /** One more byte: either the varint ends here with this value, or the running sum goes on. */
  lemma NextByte(s: seq<Byte>, p: nat, end: nat, i: nat, max: nat)
    requires p + i < end <= |s| && i < max && Continues(s, p, i)
    ensures s[p + i] < 128 ==> Length(s[p..end], max) == i + 1
    ensures s[p + i] < 128 ==> Sum(s, p, i) + (s[p + i] - 1) * Pow128(i) == Payload(s[p..end][..i + 1])
    ensures s[p + i] >= 128 ==> Sum(s, p, i) + (s[p + i] - 1) * Pow128(i) == Sum(s, p, i + 1) && Continues(s, p, i + 1)
  {
    LengthAt(s, p, end, i, max);
    SumNext(s, p, i);
    assert s[p..end][..i + 1] == s[p..p + i + 1];
  }

  /** ReadVarint64 (VarintParse and VarintParseSlow64): the pointer after the varint, or nothing. */
  method ReadVarint64(s: seq<Byte>, p: nat, end: nat) returns (r: Option<(nat, nat)>)
    requires p <= end <= |s|
    ensures r == Varint64(s[p..end])
  {
    LengthAt(s, p, end, 0, 10);
    if p == end { return None; }
    var res: nat := s[p];
    FirstByte(s, p, end, 10);
    if res < 128 { return Some((res, 1)); }
    var i := 1;
    while i < 10
      invariant 1 <= i <= 10 && p + i <= end && Continues(s, p, i)
      invariant res == Sum(s, p, i) % TWO_TO_64
    {
      LengthAt(s, p, end, i, 10);
      if p + i == end { return None; }
      var byte := s[p + i];
      NextByte(s, p, end, i, 10);
      AddMod64(Sum(s, p, i), (byte - 1) * Pow128(i));
      res := (res + (byte - 1) * Pow128(i)) % TWO_TO_64;
      if byte < 128 { return Some((res, i + 1)); }
      i := i + 1;
    }
    LengthAt(s, p, end, 10, 10);
    return None;
  }

  lemma FirstByte(s: seq<Byte>, p: nat, end: nat, max: nat)
    requires p < end <= |s| && 0 < max
    ensures s[p] >= 128 ==> Continues(s, p, 1) && Sum(s, p, 1) == s[p]
    ensures s[p] < 128 ==> Length(s[p..end], max) == 1 && Payload(s[p..end][..1]) == s[p]
  {
    assert s[p..end][..1] == s[p..p + 1] == [s[p]];
    assert [s[p]][1..] == [] && Payload([s[p]]) == s[p] % 128;
    assert Pow128(1) == 128 * Pow128(0);
  }

  /** ReadTag and ReadTagFallback. */
  method ReadTag(s: seq<Byte>, p: nat, end: nat) returns (r: Option<(nat, nat)>)
    requires p <= end <= |s|
    ensures r == Tag(s[p..end])
  {
    LengthAt(s, p, end, 0, 5);
    if p == end { return None; }
    var res: nat := s[p];
    FirstByte(s, p, end, 5);
    if res < 128 { return Some((res, 1)); }
    var i := 1;
    while i < 5
      invariant 1 <= i <= 5 && p + i <= end && Continues(s, p, i)
      invariant res == Sum(s, p, i) % TWO_TO_32
    {
      LengthAt(s, p, end, i, 5);
      if p + i == end { return None; }
      var byte := s[p + i];
      NextByte(s, p, end, i, 5);
      AddMod32(Sum(s, p, i), (byte - 1) * Pow128(i));
      res := (res + (byte - 1) * Pow128(i)) % TWO_TO_32;
      if byte < 128 { return Some((res, i + 1)); }
      i := i + 1;
    }
    LengthAt(s, p, end, 5, 5);
    return None;
  }

  /** ReadSize and ReadSizeFallback: the fifth byte may only hold the top three bits of an int. */
  method ReadSize(s: seq<Byte>, p: nat, end: nat) returns (r: Option<(nat, nat)>)
    requires p <= end <= |s|
    ensures r == Size(s[p..end])
  {
    LengthAt(s, p, end, 0, 5);
    if p == end { return None; }
    var res: nat := s[p];
    FirstByte(s, p, end, 5);
    if res < 128 { return Some((res, 1)); }
    var i := 1;
    while i < 4
      invariant 1 <= i <= 4 && p + i <= end && Continues(s, p, i)
      invariant res == Sum(s, p, i)
    {
      LengthAt(s, p, end, i, 5);
      if p + i == end { return None; }
      var byte := s[p + i];
      NextByte(s, p, end, i, 5);
      PayloadBelow(s[p..end][..i + 1]);
      SizesBelow(i + 1);
      res := res + (byte - 1) * Pow128(i);
      if byte < 128 { return Some((res, i + 1)); }
      i := i + 1;
    }
    LengthAt(s, p, end, 4, 5);
    if p + 4 == end { return None; }
    var byte := s[p + 4];
    NextByte(s, p, end, 4, 5);
    if byte >= 8 {
      if byte >= 128 { LengthAt(s, p, end, 5, 5); }
      return None;
    }
    Pow128Values();
    res := res + (byte - 1) * Pow128(4);
    if res > MAX_SIZE { return None; }
    return Some((res, 5));
  }

  lemma {:induction false} PayloadBelow(s: seq<Byte>)
    ensures Payload(s) < Pow128(|s|)
  {
    if s != [] { PayloadBelow(s[1..]); }
  }

  lemma SizesBelow(n: nat)
    requires n <= 4
    ensures Pow128(n) <= MAX_SIZE
  {
    Pow128Values();
    assert Pow128(2) == 128 * Pow128(1) && Pow128(3) == 128 * Pow128(2);
  }
}
