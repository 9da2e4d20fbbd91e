/**
 The generated class Player: fields assigned while a pointer advances, sizes accumulated, bytes
 written at a target; each method against the meaning of the message.
 */
module PlayerMessage {
  import opened Common
  import opened Varint
  import opened Wire
  import opened Output
  import opened UnknownFields
  import opened MessageValues

  /** One round of a parse loop: the message went from x to y and the pointer from q to `next`, or the parse fails. */
  ghost predicate Stepped<T(!new)>(apply: (T, Field) -> Option<T>, x: T, y: T, s: seq<Byte>, q: nat, end: nat,
                                   depth: nat, next: Option<nat>)
    requires q <= end <= |s|
  {
    match next
    case None => Parse(apply, x, s[q..end], depth) == None
    case Some(r) => q < r <= end && Parse(apply, x, s[q..end], depth) == Parse(apply, y, s[r..end], depth)
  }

  /** What a field read behind the tag does to the message. */
  function Next<T>(apply: (T, Field) -> Option<T>, x: T, f: Option<(Field, nat)>): Option<T> {
    match f case None => None case Some((field, _)) => apply(x, field)
  }

  lemma FieldStep<T(!new)>(apply: (T, Field) -> Option<T>, x: T, s: seq<Byte>, q: nat, end: nat, depth: nat,
                           t: nat, k: nat, f: Option<(Field, nat)>)
    requires q < end <= |s| && Tag(s[q..end]) == Some((t, k)) && q + k <= end
    requires f == if t / 8 == 0 then None else ReadBody(s[q + k..end], t / 8, t % 8, depth)
    ensures Next(apply, x, f).None? ==> Stepped(apply, x, x, s, q, end, depth, None)
    ensures Next(apply, x, f).Some? ==>
            Stepped(apply, x, Next(apply, x, f).value, s, q, end, depth, Some(q + k + f.value.1))
  {
    hide ReadBody, Tag, Parse;
    DropAgain(s, q, end, k);
    FieldIs(s[q..end], depth, t, k, f);
    if f.None? {
      ParseStuck(apply, x, s[q..end], depth);
    } else {
      ParseStep(apply, x, s[q..end], depth);
      DropAgain(s, q, end, k + f.value.1);
    }
  }

  lemma NoTagStep<T(!new)>(apply: (T, Field) -> Option<T>, x: T, s: seq<Byte>, q: nat, end: nat, depth: nat)
    requires q < end <= |s| && Tag(s[q..end]) == None
    ensures Stepped(apply, x, x, s, q, end, depth, None)
  {
    ParseStuck(apply, x, s[q..end], depth);
  }

  lemma EndTagStep<T(!new)>(apply: (T, Field) -> Option<T>, x: T, s: seq<Byte>, q: nat, end: nat, depth: nat, t: nat,
                            k: nat)
    requires q < end <= |s| && Tag(s[q..end]) == Some((t, k)) && q + k <= end && (t == 0 || t % 8 == 4)
    ensures Stepped(apply, x, x, s, q, end, depth, None)
  {
    EndTag(s[q + k..end], depth, t);
    FieldStep(apply, x, s, q, end, depth, t, k, None);
  }

  lemma EndTag(s: seq<Byte>, depth: nat, t: nat)
    requires t == 0 || t % 8 == 4
    ensures t / 8 == 0 || ReadBody(s, t / 8, t % 8, depth) == None
  {
  }

  /** A varint behind tag 8 * num, as a field. */
  function AsVarint(num: nat, v: Option<(nat, nat)>): Option<(Field, nat)> {
    match v case None => None case Some((value, n)) => Some((VarintField(num, value), n))
  }

  function AsDelimited(num: nat, v: Option<(seq<Byte>, nat)>): Option<(Field, nat)> {
    match v case None => None case Some((data, n)) => Some((Delimited(num, data), n))
  }

  lemma VarintRead(s: seq<Byte>, num: nat, depth: nat)
    ensures ReadBody(s, num, 0, depth) == AsVarint(num, Varint64(s))
  {
  }

  lemma DelimitedRead(s: seq<Byte>, num: nat, depth: nat)
    ensures ReadBody(s, num, 2, depth) == AsDelimited(num, ReadBytes(s))
  {
  }

  class Player {
    var id: nat
    var name: seq<Byte>
    var playerType: int
    var unknown: seq<Field>
    var cachedSize: nat

    function Value(): PlayerValue
      reads this`id, this`name, this`playerType, this`unknown
    {
      PlayerValue(id, name, playerType, unknown)
    }

    constructor ()
      ensures Value() == NO_PLAYER
    {
      id, name, playerType, unknown, cachedSize := 0, [], 0, [], 0;
    }

    method Clear()
      modifies this
      ensures Value() == NO_PLAYER
    {
      name := [];
      id, playerType := 0, 0;
      unknown := [];
    }

    method MergeFrom(from: Player)
      requires from != this
      modifies this
      ensures Value() == MergePlayer(old(Value()), from.Value())
    {
      if from.name != [] {
        name := from.name;
      }
      if from.id != 0 {
        id := from.id;
      }
      if from.playerType != 0 {
        playerType := from.playerType;
      }
      unknown := unknown + from.unknown;
    }

    method CopyFrom(from: Player)
      modifies this
      ensures Value() == old(from.Value())
    {
      if from == this { return; }
      Clear();
      MergeIntoNothing(from.Value());
      MergeFrom(from);
    }

    /** Parse s[p..end] into this message, as long as it consists of acceptable fields. */
    method InternalParse(s: seq<Byte>, p: nat, end: nat, depth: nat) returns (ok: bool)
      requires p <= end <= |s|
      modifies this
      ensures ok == Parse(ApplyPlayer, old(Value()), s[p..end], depth).Some?
      ensures ok ==> Parse(ApplyPlayer, old(Value()), s[p..end], depth) == Some(Value())
    {
      ghost var whole := Parse(ApplyPlayer, Value(), s[p..end], depth);
      var q := p;
      ok := true;
      while q < end && ok
        invariant p <= q <= end
        invariant if ok then whole == Parse(ApplyPlayer, Value(), s[q..end], depth) else whole == None
        decreases end - q, ok
      {
        var next := ParseOne(s, q, end, depth);
        ok := next.Some?;
        q := if ok then next.value else q;
      }
      assert ok ==> s[q..end] == [];
    }

    /** One round of the parse loop: a tag, then the field it announces; nothing when it has to give up. */
    method ParseOne(s: seq<Byte>, q: nat, end: nat, depth: nat) returns (next: Option<nat>)
      requires q < end <= |s|
      modifies this
      ensures Stepped(ApplyPlayer, old(Value()), Value(), s, q, end, depth, next)
    {
      ghost var before := Value();
      var tag := ReadTag(s, q, end);
      if tag.None? {
        NoTagStep(ApplyPlayer, before, s, q, end, depth);
        return None;
      }
      var (t, k) := tag.value;
      if t / 8 == 1 && t % 256 == 8 {
        var v := ReadVarint64(s, q + k, end);
        IdStep(before, s, q, end, depth, k, v);
        if v.None? { return None; }
        id := v.value.0;
        return Some(q + k + v.value.1);
      } else if t / 8 == 2 && t % 256 == 18 {
        var str := ReadString(s, q + k, end);
        NameStep(before, s, q, end, depth, k, str);
        if str.None? { return None; }
        name := str.value.0;
        return if Utf8(name) then Some(q + k + str.value.1) else None;
      } else if t / 8 == 3 && t % 256 == 24 {
        var v := ReadVarint64(s, q + k, end);
        TypeStep(before, s, q, end, depth, k, v);
        if v.None? { return None; }
        playerType := ToInt32(v.value.0);
        return Some(q + k + v.value.1);
      } else {
        next := ParseUnusual(t, k, s, q, end, depth);
      }
    }

    /** handle_unusual: the end of the message, or a field it does not know. */
    method ParseUnusual(t: nat, k: nat, s: seq<Byte>, q: nat, end: nat, depth: nat) returns (next: Option<nat>)
      requires q < end <= |s| && Tag(s[q..end]) == Some((t, k)) && q + k <= end && t != 8 && t != 18 && t != 24
      modifies this`unknown
      ensures Stepped(ApplyPlayer, old(Value()), Value(), s, q, end, depth, next)
    {
      if t == 0 || t % 8 == 4 {
        EndTagStep(ApplyPlayer, Value(), s, q, end, depth, t, k);
        return None;
      }
      var f := ParseField(t, s, q + k, end, depth);
      Unusual(s[q + k..end], t, depth);
      FieldStep(ApplyPlayer, Value(), s, q, end, depth, t, k, f);
      if f.None? { return None; }
      unknown := unknown + [f.value.0];
      return Some(q + k + f.value.1);
    }

    /** The size this message will take, kept for InternalSerialize. */
    method ByteSizeLong(ghost depth: nat) returns (size: nat)
      requires PlayerSized(Value(), depth)
      modifies this`cachedSize
      ensures size == cachedSize == |EncodePlayer(Value())|
    {
      hide EncodePlayer, EncodeFields, VarintSize;
      PlayerParts(Value());
      EnumRoundTrip(playerType);
      PlayerKnownSize(Value());
      size := 0;
      if name != [] {
        size := size + 1 + (|name| + VarintSize(|name| % TWO_TO_32));
      }
      if id != 0 {
        size := size + VarintSizePlusOne(id);
      }
      if playerType != 0 {
        size := size + 1 + VarintSize(SignExtend(playerType));
      }
      var more := ComputeSize(unknown, depth);
      size := size + more;
      cachedSize := size;
    }

    /** Write the fields at `at`, in field order. */
    method InternalSerialize(target: array<Byte>, at: nat, ghost depth: nat) returns (next: nat)
      requires PlayerSized(Value(), depth) && at + |EncodePlayer(Value())| <= target.Length
      modifies target
      ensures next == at + |EncodePlayer(Value())|
      ensures target[..] == Overwrite(old(target[..]), at, EncodePlayer(Value()))
    {
      hide EncodePlayer, EncodeFields, Overwrite;
      PlayerParts(Value());
      OverwriteTwice(target[..], at, KnownBytes(Value()), EncodeFields(unknown));
      next := WriteKnown(target, at, depth);
      next := Serialize(unknown, target, next, depth);
    }

    method WriteKnown(target: array<Byte>, at: nat, ghost depth: nat) returns (next: nat)
      requires PlayerSized(Value(), depth) && at + |KnownBytes(Value())| <= target.Length
      modifies target
      ensures next == at + |KnownBytes(Value())|
      ensures target[..] == Overwrite(old(target[..]), at, KnownBytes(Value()))
    {
      hide EncodeFields, Overwrite;
      OverwriteTwice(target[..], at, EncodeFields(IdFields(id)) + EncodeFields(StringFields(name)),
                     EncodeFields(TypeFields(playerType)));
      next := WriteIdAndString(id, name, target, at, depth);
      next := WriteType(playerType, target, next, depth);
    }
  }

  function KnownBytes(p: PlayerValue): seq<Byte>
    requires IsInt32(p.playerType)
  {
    EncodeFields(IdFields(p.id)) + EncodeFields(StringFields(p.name)) + EncodeFields(TypeFields(p.playerType))
  }

  method WriteIdAndString(id: nat, data: seq<Byte>, target: array<Byte>, at: nat, ghost depth: nat) returns (next: nat)
    requires id < TWO_TO_64 && |data| < TWO_TO_32
    requires at + |EncodeFields(IdFields(id))| + |EncodeFields(StringFields(data))| <= target.Length
    modifies target
    ensures next == at + |EncodeFields(IdFields(id))| + |EncodeFields(StringFields(data))|
    ensures target[..] == Overwrite(old(target[..]), at, EncodeFields(IdFields(id)) + EncodeFields(StringFields(data)))
  {
    OverwriteTwice(target[..], at, EncodeFields(IdFields(id)), EncodeFields(StringFields(data)));
    next := WriteId(id, target, at, depth);
    next := WriteOptionalString(data, target, next);
  }

  /** Field 1 as a varint, unless it is 0. */
  method WriteId(id: nat, target: array<Byte>, at: nat, ghost depth: nat) returns (next: nat)
    requires id < TWO_TO_64 && at + |EncodeFields(IdFields(id))| <= target.Length
    modifies target
    ensures next == at + |EncodeFields(IdFields(id))|
    ensures target[..] == Overwrite(old(target[..]), at, EncodeFields(IdFields(id)))
  {
    next := at;
    if id != 0 {
      EncodeOne(VarintField(1, id));
      next := SerializeField(VarintField(1, id), target, at, depth);
    }
  }

  /** Field 2 as a string, unless it is empty. */
  method WriteOptionalString(data: seq<Byte>, target: array<Byte>, at: nat) returns (next: nat)
    requires |data| < TWO_TO_32 && at + |EncodeFields(StringFields(data))| <= target.Length
    modifies target
    ensures next == at + |EncodeFields(StringFields(data))|
    ensures target[..] == Overwrite(old(target[..]), at, EncodeFields(StringFields(data)))
  {
    next := at;
    if data != [] {
      EncodeOne(Delimited(2, data));
      next := WriteString(2, data, target, at);
    }
  }

  /** Field 3 as a sign-extended varint, unless it is 0. */
  method WriteType(t: int, target: array<Byte>, at: nat, ghost depth: nat) returns (next: nat)
    requires IsInt32(t) && at + |EncodeFields(TypeFields(t))| <= target.Length
    modifies target
    ensures next == at + |EncodeFields(TypeFields(t))|
    ensures target[..] == Overwrite(old(target[..]), at, EncodeFields(TypeFields(t)))
  {
    next := at;
    if t != 0 {
      EnumRoundTrip(t);
      EncodeOne(VarintField(3, SignExtend(t)));
      next := SerializeField(VarintField(3, SignExtend(t)), target, at, depth);
    }
  }

  lemma EncodeOne(f: Field)
    ensures EncodeFields([f]) == EncodeField(f)
  {
    assert [f][1..] == [];
  }

  lemma PlayerKnownSize(p: PlayerValue)
    requires p.id < TWO_TO_64 && |p.name| < TWO_TO_32 && IsInt32(p.playerType)
    ensures |KnownBytes(p)| ==
            (if p.name != [] then 1 + (|p.name| + VarintSize(|p.name| % TWO_TO_32)) else 0)
            + (if p.id != 0 then VarintSizePlusOne(p.id) else 0)
            + (if p.playerType != 0 then 1 + VarintSize(SignExtend(p.playerType)) else 0)
  {
    EnumRoundTrip(p.playerType);
    if p.name != [] { StringFieldSize(2, p.name); }
    if p.id != 0 { VarintFieldSize(1, p.id); }
    if p.playerType != 0 { VarintFieldSize(3, SignExtend(p.playerType)); }
  }

  lemma PlayerParts(p: PlayerValue)
    requires IsInt32(p.playerType)
    ensures EncodePlayer(p) == KnownBytes(p) + EncodeFields(p.unknown)
  {
    EncodeConcat(IdFields(p.id), StringFields(p.name));
    EncodeConcat(IdFields(p.id) + StringFields(p.name), TypeFields(p.playerType));
    EncodeConcat(IdFields(p.id) + StringFields(p.name) + TypeFields(p.playerType), p.unknown);
  }

  /** A one-byte tag and a varint. */
  lemma VarintFieldSize(num: nat, value: nat)
    requires num < 16 && value < TWO_TO_64
    ensures |EncodeFields([VarintField(num, value)])| == 1 + VarintSize(value) == VarintSizePlusOne(value)
  {
    EncodeOne(VarintField(num, value));
    VarintSizeExact(value);
  }

  /** A one-byte tag, a size and the bytes. */
  lemma StringFieldSize(num: nat, data: seq<Byte>)
    requires num < 15 && |data| < TWO_TO_32
    ensures |EncodeFields([Delimited(num, data)])| == 1 + (|data| + VarintSize(|data| % TWO_TO_32))
  {
    EncodeOne(Delimited(num, data));
    assert |data| % TWO_TO_32 == |data|;
    VarintSizeExact(|data|);
  }

  lemma IdStep(x: PlayerValue, s: seq<Byte>, q: nat, end: nat, depth: nat, k: nat, v: Option<(nat, nat)>)
    requires q < end <= |s| && Tag(s[q..end]) == Some((8, k)) && q + k <= end && v == Varint64(s[q + k..end])
    ensures v.None? ==> Stepped(ApplyPlayer, x, x, s, q, end, depth, None)
    ensures v.Some? ==> Stepped(ApplyPlayer, x, x.(id := v.value.0), s, q, end, depth, Some(q + k + v.value.1))
  {
    VarintRead(s[q + k..end], 1, depth);
    FieldStep(ApplyPlayer, x, s, q, end, depth, 8, k, AsVarint(1, v));
  }

  lemma NameStep(x: PlayerValue, s: seq<Byte>, q: nat, end: nat, depth: nat, k: nat, str: Option<(seq<Byte>, nat)>)
    requires q < end <= |s| && Tag(s[q..end]) == Some((18, k)) && q + k <= end && str == ReadBytes(s[q + k..end])
    ensures str.None? ==> Stepped(ApplyPlayer, x, x, s, q, end, depth, None)
    ensures str.Some? ==>
              Stepped(ApplyPlayer, x, x.(name := str.value.0), s, q, end, depth,
                      if Utf8(str.value.0) then Some(q + k + str.value.1) else None)
  {
    DelimitedRead(s[q + k..end], 2, depth);
    FieldStep(ApplyPlayer, x, s, q, end, depth, 18, k, AsDelimited(2, str));
  }

  lemma TypeStep(x: PlayerValue, s: seq<Byte>, q: nat, end: nat, depth: nat, k: nat, v: Option<(nat, nat)>)
    requires q < end <= |s| && Tag(s[q..end]) == Some((24, k)) && q + k <= end && v == Varint64(s[q + k..end])
    ensures v.None? ==> Stepped(ApplyPlayer, x, x, s, q, end, depth, None)
    ensures v.Some? ==> Stepped(ApplyPlayer, x, x.(playerType := ToInt32(v.value.0)), s, q, end, depth,
                                Some(q + k + v.value.1))
  {
    VarintRead(s[q + k..end], 3, depth);
    FieldStep(ApplyPlayer, x, s, q, end, depth, 24, k, AsVarint(3, v));
  }

  /** A field read with a tag that is none of the three known ones is none of the known fields. */
  lemma Unusual(s: seq<Byte>, t: nat, depth: nat)
    requires t != 8 && t != 18 && t != 24
    ensures var r := ReadBody(s, t / 8, t % 8, depth); r.Some? ==> !PlayerKnows(r.value.0)
  {
  }
}
