/**
 The wire format below the messages: a sequence of tagged fields. Fields that a message does not
 know are kept in this form, groups with their contents, and written out again.
 */
module Wire {
  import opened Common
  import opened Varint

  datatype Field =
    | VarintField(num: nat, value: nat)
    | Fixed64Field(num: nat, bytes: seq<Byte>)
    | Delimited(num: nat, data: seq<Byte>)
    | Group(num: nat, fields: seq<Field>)
    | Fixed32Field(num: nat, bytes: seq<Byte>)

  const MAX_NUMBER: nat := 0x1FFF_FFFF

  // ----- reading -----

  /** The first field of `s` and how many bytes it takes; nothing when `s` does not start with a field. At most
      `depth` groups may be open inside it. */
  function ReadField(s: seq<Byte>, depth: nat): (r: Option<(Field, nat)>)
    ensures r.Some? ==> 0 < r.value.1 <= |s|
    decreases |s|, 0
  {
    match Tag(s)
    case None => None
    case Some((tag, k)) => if tag / 8 == 0 then None else After(k, ReadBody(s[k..], tag / 8, tag % 8, depth))
  }

  /** What was read after k other bytes. */
  function After<T>(k: nat, r: Option<(T, nat)>): Option<(T, nat)> {
    match r case None => None case Some((x, n)) => Some((x, k + n))
  }

  /** What follows a tag. */
  function ReadBody(s: seq<Byte>, num: nat, wireType: nat, depth: nat): (r: Option<(Field, nat)>)
    ensures r.Some? ==> r.value.1 <= |s|
    decreases |s|, 2
  {
    if wireType == 0 then
      (match Varint64(s) case None => None case Some((v, n)) => Some((VarintField(num, v), n)))
    else if wireType == 1 then
      if |s| < 8 then None else Some((Fixed64Field(num, s[..8]), 8))
    else if wireType == 2 then
      (match ReadBytes(s) case None => None case Some((data, n)) => Some((Delimited(num, data), n)))
    else if wireType == 3 then
      if depth == 0 then None else
      (match ReadGroup(s, num, depth - 1) case None => None case Some((fs, n)) => Some((Group(num, fs), n)))
    else if wireType == 5 then
      if |s| < 4 then None else Some((Fixed32Field(num, s[..4]), 4))
    else None
  }

  /** A size and that many bytes. */
  function ReadBytes(s: seq<Byte>): (r: Option<(seq<Byte>, nat)>)
    ensures r.Some? ==> 0 < r.value.1 <= |s|
  {
    match Size(s)
    case None => None
    case Some((size, n)) => if |s| - n < size then None else Some((s[n..n + size], n + size))
  }

  /** The fields of a group, up to and including its own end tag. */
  function ReadGroup(s: seq<Byte>, num: nat, depth: nat): (r: Option<(seq<Field>, nat)>)
    ensures r.Some? ==> r.value.1 <= |s|
    decreases |s|, 1
  {
    match Tag(s)
    case None => None
    case Some((tag, k)) =>
      if tag == num * 8 + 4 then Some(([], k))
      else if tag == 0 || tag % 8 == 4 then None
      else
        match ReadField(s, depth)
        case None => None
        case Some((f, n)) =>
          match ReadGroup(s[n..], num, depth)
          case None => None
          case Some((fs, m)) => Some(([f] + fs, n + m))
  }

  /** All fields of `s`, if it consists of fields. */
  function Decode(s: seq<Byte>, depth: nat): Option<seq<Field>>
    decreases |s|
  {
    if s == [] then Some([]) else
    match ReadField(s, depth)
    case None => None
    case Some((f, n)) =>
      match Decode(s[n..], depth)
      case None => None
      case Some(fs) => Some([f] + fs)
  }

  // ----- writing -----

  function EncodeTag(num: nat, wireType: nat): seq<Byte> {
    Encode(num * 8 + wireType)
  }

  function EncodeField(f: Field): seq<Byte>
    decreases f
  {
    match f
    case VarintField(num, value) => EncodeTag(num, 0) + Encode(value)
    case Fixed64Field(num, bytes) => EncodeTag(num, 1) + bytes
    case Delimited(num, data) => EncodeTag(num, 2) + (Encode(|data|) + data)
    case Group(num, fields) => EncodeTag(num, 3) + (EncodeFields(fields) + EncodeTag(num, 4))
    case Fixed32Field(num, bytes) => EncodeTag(num, 5) + bytes
  }

  function EncodeFields(fs: seq<Field>): seq<Byte>
    decreases fs
  {
    if fs == [] then [] else EncodeField(fs[0]) + EncodeFields(fs[1..])
  }

  /** A field that can be written and read back with `depth` groups to spare. */
  ghost predicate WellFormed(f: Field, depth: nat)
    decreases f
  {
    && 0 < f.num <= MAX_NUMBER
    && match f
       case VarintField(_, value) => value < TWO_TO_64
       case Fixed64Field(_, bytes) => |bytes| == 8
       case Delimited(_, data) => |data| <= MAX_SIZE
       case Group(_, fields) => 0 < depth && AllWellFormed(fields, depth - 1)
       case Fixed32Field(_, bytes) => |bytes| == 4
  }

  ghost predicate AllWellFormed(fs: seq<Field>, depth: nat)
    decreases fs
  {
    fs == [] || (WellFormed(fs[0], depth) && AllWellFormed(fs[1..], depth))
  }

  // ----- reading undoes writing -----

  lemma TagIs(num: nat, wireType: nat, t: seq<Byte>)
    requires 0 < num <= MAX_NUMBER && wireType < 8
    ensures var tag := num * 8 + wireType;
            tag / 8 == num && tag % 8 == wireType
            && Tag(EncodeTag(num, wireType) + t) == Some((tag, |EncodeTag(num, wireType)|))
    ensures (EncodeTag(num, wireType) + t)[|EncodeTag(num, wireType)|..] == t
  {
    TagRoundTrip(num * 8 + wireType, t);
  }

  /** Bytes behind their size are read back, unless there are too many of them. */
  lemma BytesRoundTrip(data: seq<Byte>, t: seq<Byte>)
    ensures ReadBytes(Encode(|data|) + data + t)
            == if |data| <= MAX_SIZE then Some((data, |Encode(|data|) + data|)) else None
  {
    var size := Encode(|data|);
    Associate(size, data, t);
    SizeRoundTripIff(|data|, data + t);
    assert (size + (data + t))[|size|..|size| + |data|] == data;
  }

  /** The encoding of a field is its tag and a body. */
  function Body(f: Field): seq<Byte>
    decreases f
  {
    match f
    case VarintField(num, value) => Encode(value)
    case Fixed64Field(num, bytes) => bytes
    case Delimited(num, data) => Encode(|data|) + data
    case Group(num, fields) => EncodeFields(fields) + EncodeTag(num, 4)
    case Fixed32Field(num, bytes) => bytes
  }

  function WireType(f: Field): nat {
    match f
    case VarintField(_, _) => 0
    case Fixed64Field(_, _) => 1
    case Delimited(_, _) => 2
    case Group(_, _) => 3
    case Fixed32Field(_, _) => 5
  }

  lemma TagThenBody(f: Field, t: seq<Byte>)
    ensures EncodeField(f) == EncodeTag(f.num, WireType(f)) + Body(f)
    ensures EncodeField(f) + t == EncodeTag(f.num, WireType(f)) + (Body(f) + t)
  {
    Associate(EncodeTag(f.num, WireType(f)), Body(f), t);
  }

  /** The tag a field starts with is never an end tag. */
  lemma StartTag(f: Field, t: seq<Byte>, depth: nat)
    requires 0 < f.num <= MAX_NUMBER
    ensures Tag(EncodeField(f) + t) == Some((f.num * 8 + WireType(f), |EncodeTag(f.num, WireType(f))|))
    ensures ReadField(EncodeField(f) + t, depth)
            == After(|EncodeTag(f.num, WireType(f))|, ReadBody(Body(f) + t, f.num, WireType(f), depth))
  {
    TagThenBody(f, t);
    TagIs(f.num, WireType(f), Body(f) + t);
  }

  lemma {:induction false} FieldRoundTrip(f: Field, depth: nat, t: seq<Byte>)
    requires WellFormed(f, depth)
    ensures ReadField(EncodeField(f) + t, depth) == Some((f, |EncodeField(f)|))
    decreases f, 1
  {
    StartTag(f, t, depth);
    TagThenBody(f, t);
    BodyRoundTrip(f, depth, t);
  }

  lemma {:induction false} BodyRoundTrip(f: Field, depth: nat, t: seq<Byte>)
    requires WellFormed(f, depth)
    ensures ReadBody(Body(f) + t, f.num, WireType(f), depth) == Some((f, |Body(f)|))
    decreases f, 0
  {
    match f
    case VarintField(num, value) => VarintBody(num, value, t, depth);
    case Fixed64Field(num, bytes) => FixedBody(num, bytes, t, depth);
    case Delimited(num, data) => BytesRoundTrip(data, t);
    case Group(num, fields) =>
      GroupRoundTrip(fields, num, depth - 1, t);
      GroupBody(num, fields, EncodeFields(fields) + EncodeTag(num, 4), t, depth);
    case Fixed32Field(num, bytes) => FixedBody(num, bytes, t, depth);
  }

  lemma VarintBody(num: nat, value: nat, t: seq<Byte>, depth: nat)
    requires value < TWO_TO_64
    ensures ReadBody(Encode(value) + t, num, 0, depth) == Some((VarintField(num, value), |Encode(value)|))
  {
    Varint64RoundTrip(value, t);
  }

  lemma FixedBody(num: nat, bytes: seq<Byte>, t: seq<Byte>, depth: nat)
    ensures |bytes| == 8 ==> ReadBody(bytes + t, num, 1, depth) == Some((Fixed64Field(num, bytes), 8))
    ensures |bytes| == 4 ==> ReadBody(bytes + t, num, 5, depth) == Some((Fixed32Field(num, bytes), 4))
  {
    assert (bytes + t)[..|bytes|] == bytes;
  }

  lemma GroupBody(num: nat, fields: seq<Field>, bytes: seq<Byte>, t: seq<Byte>, depth: nat)
    requires 0 < depth && ReadGroup(bytes + t, num, depth - 1) == Some((fields, |bytes|))
    ensures ReadBody(bytes + t, num, 3, depth) == Some((Group(num, fields), |bytes|))
  {
  }

  lemma GroupGoesOn(first: seq<Byte>, rest: seq<Byte>, num: nat, depth: nat, tag: nat, k: nat, f: Field, fs: seq<Field>,
                    m: nat)
    requires Tag(first + rest) == Some((tag, k)) && tag != 0 && tag % 8 != 4
    requires ReadField(first + rest, depth) == Some((f, |first|)) && ReadGroup(rest, num, depth) == Some((fs, m))
    ensures ReadGroup(first + rest, num, depth) == Some(([f] + fs, |first| + m))
  {
    hide ReadField, Tag;
    assert (first + rest)[|first|..] == rest;
    assert (num * 8 + 4) % 8 == 4;
  }

  lemma GroupEnds(num: nat, depth: nat, t: seq<Byte>)
    requires 0 < num <= MAX_NUMBER
    ensures ReadGroup(EncodeTag(num, 4) + t, num, depth) == Some(([], |EncodeTag(num, 4)|))
  {
    TagIs(num, 4, t);
  }

  lemma GroupCons(first: seq<Byte>, more: seq<Byte>, end: seq<Byte>, t: seq<Byte>, num: nat, depth: nat,
                  tag: nat, k: nat, f: Field, fs: seq<Field>)
    requires Tag(first + (more + end + t)) == Some((tag, k)) && tag != 0 && tag % 8 != 4
    requires ReadField(first + (more + end + t), depth) == Some((f, |first|))
    requires ReadGroup(more + end + t, num, depth) == Some((fs, |more + end|))
    ensures ReadGroup(first + more + end + t, num, depth) == Some(([f] + fs, |first + more + end|))
  {
    Regroup(first, more, end, t);
    GroupGoesOn(first, more + end + t, num, depth, tag, k, f, fs, |more + end|);
  }

  lemma Regroup(xs: seq<Byte>, ys: seq<Byte>, end: seq<Byte>, t: seq<Byte>)
    ensures xs + ys + end + t == xs + (ys + end + t)
    ensures |xs + ys + end| == |xs| + |ys + end|
  {
  }

  lemma {:induction false} GroupRoundTrip(fs: seq<Field>, num: nat, depth: nat, t: seq<Byte>)
    requires AllWellFormed(fs, depth) && 0 < num <= MAX_NUMBER
    ensures ReadGroup(EncodeFields(fs) + EncodeTag(num, 4) + t, num, depth)
            == Some((fs, |EncodeFields(fs) + EncodeTag(num, 4)|))
    decreases fs, 2
  {
    hide ReadGroup, ReadField, Tag, EncodeTag, EncodeField, Body;
    var end := EncodeTag(num, 4);
    if fs == [] {
      assert EncodeFields(fs) + end == end;
      GroupEnds(num, depth, t);
    } else {
      var f, first, more := fs[0], EncodeField(fs[0]), EncodeFields(fs[1..]);
      FieldRoundTrip(f, depth, more + end + t);
      GroupRoundTrip(fs[1..], num, depth, t);
      StartTag(f, more + end + t, depth);
      GroupCons(first, more, end, t, num, depth, f.num * 8 + WireType(f), |EncodeTag(f.num, WireType(f))|, f, fs[1..]);
      assert [f] + fs[1..] == fs;
    }
  }

  /** Writing any well-formed fields and reading them back gives the same fields. */
  lemma {:induction false} DecodeEncode(fs: seq<Field>, depth: nat)
    requires AllWellFormed(fs, depth)
    ensures Decode(EncodeFields(fs), depth) == Some(fs)
    decreases fs
  {
    if fs != [] {
      var first, rest := EncodeField(fs[0]), EncodeFields(fs[1..]);
      FieldRoundTrip(fs[0], depth, rest);
      assert (first + rest)[|first|..] == rest;
      DecodeEncode(fs[1..], depth);
      assert [fs[0]] + fs[1..] == fs;
    }
  }

  /** What cannot be decoded cannot be decoded behind a field either. */
  lemma DecodeBehind(f: Field, t: seq<Byte>, depth: nat)
    requires WellFormed(f, depth) && Decode(t, depth) == None
    ensures Decode(EncodeField(f) + t, depth) == None
  {
    FieldRoundTrip(f, depth, t);
    assert (EncodeField(f) + t)[|EncodeField(f)|..] == t;
  }

  lemma {:induction false} DecodeBehindAll(fs: seq<Field>, t: seq<Byte>, depth: nat)
    requires AllWellFormed(fs, depth) && Decode(t, depth) == None
    ensures Decode(EncodeFields(fs) + t, depth) == None
    decreases fs
  {
    if fs == [] {
      assert EncodeFields(fs) + t == t;
    } else {
      DecodeBehindAll(fs[1..], t, depth);
      DecodeBehind(fs[0], EncodeFields(fs[1..]) + t, depth);
      Associate(EncodeField(fs[0]), EncodeFields(fs[1..]), t);
    }
  }

  lemma LongDataRefused(num: nat, data: seq<Byte>, t: seq<Byte>, depth: nat)
    requires 0 < num <= MAX_NUMBER && MAX_SIZE < |data|
    ensures Decode(EncodeField(Delimited(num, data)) + t, depth) == None
  {
    StartTag(Delimited(num, data), t, depth);
    BytesRoundTrip(data, t);
  }

  lemma {:induction false} EncodeConcat(fs: seq<Field>, gs: seq<Field>)
    ensures EncodeFields(fs + gs) == EncodeFields(fs) + EncodeFields(gs)
    decreases fs
  {
    if fs == [] {
      assert fs + gs == gs;
    } else {
      assert (fs + gs)[1..] == fs[1..] + gs;
      EncodeConcat(fs[1..], gs);
      Associate(EncodeField(fs[0]), EncodeFields(fs[1..]), EncodeFields(gs));
    }
  }

  lemma {:induction false} WellFormedConcat(fs: seq<Field>, gs: seq<Field>, depth: nat)
    ensures AllWellFormed(fs + gs, depth) <==> AllWellFormed(fs, depth) && AllWellFormed(gs, depth)
    decreases fs
  {
    if fs == [] {
      assert fs + gs == gs;
    } else {
      assert (fs + gs)[1..] == fs[1..] + gs;
      WellFormedConcat(fs[1..], gs, depth);
    }
  }

  // ----- what is refused -----

  /** Why a field is refused: no tag or number 0, a wire type that starts no field, too few bytes, or a group that does
      not end or lies too deep. */
  lemma RefusedIff(s: seq<Byte>, depth: nat)
    ensures ReadField(s, depth) == None <==>
            match Tag(s) {
              case None => true
              case Some((tag, k)) =>
                || tag < 8 || tag % 8 == 4 || tag % 8 == 6 || tag % 8 == 7
                || (tag % 8 == 0 && Varint64(s[k..]) == None) || (tag % 8 == 1 && |s| < k + 8)
                || (tag % 8 == 2 && match Size(s[k..]) case None => true case Some((size, n)) => |s| < k + n + size)
                || (tag % 8 == 3 && (depth == 0 || ReadGroup(s[k..], tag / 8, depth - 1) == None))
                || (tag % 8 == 5 && |s| < k + 4)
            }
  {
  }

  /** A group that is closed under another number is refused. */
  lemma {:induction false} WrongEndRefused(fs: seq<Field>, num: nat, other: nat, t: seq<Byte>, depth: nat)
    requires AllWellFormed(fs, depth) && 0 < num <= MAX_NUMBER && 0 < other <= MAX_NUMBER && other != num
    ensures ReadGroup(EncodeFields(fs) + (EncodeTag(other, 4) + t), num, depth) == None
    decreases fs
  {
    var end := EncodeTag(other, 4) + t;
    if fs == [] {
      assert EncodeFields(fs) + end == end;
      TagIs(other, 4, t);
    } else {
      WrongEndRefused(fs[1..], num, other, t, depth);
      GroupStuck(fs[0], EncodeFields(fs[1..]) + end, num, depth);
      Associate(EncodeField(fs[0]), EncodeFields(fs[1..]), end);
    }
  }

  /** A group that is not closed is refused. */
  lemma {:induction false} OpenGroupRefused(fs: seq<Field>, num: nat, depth: nat)
    requires AllWellFormed(fs, depth) && 0 < num <= MAX_NUMBER
    ensures ReadGroup(EncodeFields(fs), num, depth) == None
    decreases fs
  {
    if fs != [] {
      OpenGroupRefused(fs[1..], num, depth);
      GroupStuck(fs[0], EncodeFields(fs[1..]), num, depth);
    }
  }

  lemma GroupStuck(f: Field, rest: seq<Byte>, num: nat, depth: nat)
    requires WellFormed(f, depth) && ReadGroup(rest, num, depth) == None
    ensures ReadGroup(EncodeField(f) + rest, num, depth) == None
  {
    hide ReadField, EncodeField;
    FieldRoundTrip(f, depth, rest);
    StartTag(f, rest, depth);
    assert (EncodeField(f) + rest)[|EncodeField(f)|..] == rest;
    assert (num * 8 + 4) % 8 == 4;
  }

  // ----- whatever is read is well formed -----

  lemma {:induction false} ReadIsWellFormed(s: seq<Byte>, depth: nat)
    ensures var r := ReadField(s, depth); r.Some? ==> WellFormed(r.value.0, depth)
    decreases |s|, 0
  {
    if ReadField(s, depth).Some? {
      var (tag, k) := Tag(s).value;
      assert tag < TWO_TO_32;
      if tag % 8 == 3 && depth > 0 { GroupIsWellFormed(s[k..], tag / 8, depth - 1); }
    }
  }

  lemma {:induction false} GroupIsWellFormed(s: seq<Byte>, num: nat, depth: nat)
    ensures var r := ReadGroup(s, num, depth); r.Some? ==> AllWellFormed(r.value.0, depth)
    decreases |s|, 1
  {
    if ReadGroup(s, num, depth).Some? && ReadGroup(s, num, depth).value.0 != [] {
      ReadIsWellFormed(s, depth);
      var (f, n) := ReadField(s, depth).value;
      GroupIsWellFormed(s[n..], num, depth);
    }
  }

  lemma {:induction false} DecodeIsWellFormed(s: seq<Byte>, depth: nat)
    ensures Decode(s, depth).Some? ==> AllWellFormed(Decode(s, depth).value, depth)
    decreases |s|
  {
    if s != [] && Decode(s, depth).Some? {
      ReadIsWellFormed(s, depth);
      var (f, n) := ReadField(s, depth).value;
      DecodeIsWellFormed(s[n..], depth);
    }
  }
}
