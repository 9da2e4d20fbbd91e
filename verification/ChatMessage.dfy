/**
 The generated class S_CHAT: a player id and a text.
 */
module ChatMessage {
  import opened Common
  import opened Varint
  import opened Wire
  import opened Output
  import opened UnknownFields
  import opened MessageValues
  import opened PlayerMessage

  class Chat {
    var playerId: nat
    var msg: seq<Byte>
    var unknown: seq<Field>
    var cachedSize: nat

    function Value(): ChatValue
      reads this`playerId, this`msg, this`unknown
    {
      ChatValue(playerId, msg, unknown)
    }

    constructor ()
      ensures Value() == NO_CHAT
    {
      playerId, msg, unknown, cachedSize := 0, [], [], 0;
    }

    method Clear()
      modifies this
      ensures Value() == NO_CHAT
    {
      msg := [];
      playerId := 0;
      unknown := [];
    }

    method MergeFrom(from: Chat)
      requires from != this
      modifies this
      ensures Value() == MergeChat(old(Value()), from.Value())
    {
      if from.msg != [] {
        msg := from.msg;
      }
      if from.playerId != 0 {
        playerId := from.playerId;
      }
      unknown := unknown + from.unknown;
    }

    method CopyFrom(from: Chat)
      modifies this
      ensures Value() == old(from.Value())
    {
      if from == this { return; }
      Clear();
      MergeFrom(from);
      assert [] + from.unknown == from.unknown;
    }

    method InternalParse(s: seq<Byte>, p: nat, end: nat, depth: nat) returns (ok: bool)
      requires p <= end <= |s|
      modifies this
      ensures ok == Parse(ApplyChat, old(Value()), s[p..end], depth).Some?
      ensures ok ==> Parse(ApplyChat, old(Value()), s[p..end], depth) == Some(Value())
    {
      ghost var whole := Parse(ApplyChat, Value(), s[p..end], depth);
      var q := p;
      ok := true;
      while q < end && ok
        invariant p <= q <= end
        invariant if ok then whole == Parse(ApplyChat, Value(), s[q..end], depth) else whole == None
        decreases end - q, ok
      {
        var next := ParseOne(s, q, end, depth);
        ok := next.Some?;
        q := if ok then next.value else q;
      }
      assert ok ==> s[q..end] == [];
    }

    method ParseOne(s: seq<Byte>, q: nat, end: nat, depth: nat) returns (next: Option<nat>)
      requires q < end <= |s|
      modifies this
      ensures Stepped(ApplyChat, old(Value()), Value(), s, q, end, depth, next)
    {
      hide Parse, Tag, ReadBytes, Varint64;
      ghost var before := Value();
      var tag := ReadTag(s, q, end);
      if tag.None? {
        NoTagStep(ApplyChat, before, s, q, end, depth);
        return None;
      }
      var (t, k) := tag.value;
      if t / 8 == 1 && t % 256 == 8 {
        var v := ReadVarint64(s, q + k, end);
        PlayerIdStep(before, s, q, end, depth, k, v);
        if v.None? { return None; }
        playerId := v.value.0;
        return Some(q + k + v.value.1);
      } else if t / 8 == 2 && t % 256 == 18 {
        var str := ReadString(s, q + k, end);
        MsgStep(before, s, q, end, depth, k, str);
        if str.None? { return None; }
        msg := str.value.0;
        return if Utf8(msg) then Some(q + k + str.value.1) else None;
      } else {
        next := ParseUnusual(t, k, s, q, end, depth);
      }
    }

    method ParseUnusual(t: nat, k: nat, s: seq<Byte>, q: nat, end: nat, depth: nat) returns (next: Option<nat>)
      requires q < end <= |s| && Tag(s[q..end]) == Some((t, k)) && q + k <= end && t != 8 && t != 18
      modifies this`unknown
      ensures Stepped(ApplyChat, old(Value()), Value(), s, q, end, depth, next)
    {
      hide Parse, Tag;
      if t == 0 || t % 8 == 4 {
        EndTagStep(ApplyChat, Value(), s, q, end, depth, t, k);
        return None;
      }
      var f := ParseField(t, s, q + k, end, depth);
      ChatUnusual(s[q + k..end], t, depth);
      FieldStep(ApplyChat, Value(), s, q, end, depth, t, k, f);
      if f.None? { return None; }
      unknown := unknown + [f.value.0];
      return Some(q + k + f.value.1);
    }

    method ByteSizeLong(ghost depth: nat) returns (size: nat)
      requires ChatSized(Value(), depth)
      modifies this`cachedSize
      ensures size == cachedSize == |EncodeChat(Value())|
    {
      hide EncodeChat, EncodeFields;
      ChatParts(Value());
      NoFields();
      if msg != [] { StringFieldSize(2, msg); }
      if playerId != 0 { VarintFieldSize(1, playerId); }
      size := 0;
      if msg != [] {
        size := size + 1 + (|msg| + VarintSize(|msg| % TWO_TO_32));
      }
      if playerId != 0 {
        size := size + VarintSizePlusOne(playerId);
      }
      var more := ComputeSize(unknown, depth);
      size := size + more;
      cachedSize := size;
    }

    method InternalSerialize(target: array<Byte>, at: nat, ghost depth: nat) returns (next: nat)
      requires ChatSized(Value(), depth) && at + |EncodeChat(Value())| <= target.Length
      modifies target
      ensures next == at + |EncodeChat(Value())|
      ensures target[..] == Overwrite(old(target[..]), at, EncodeChat(Value()))
    {
      hide EncodeChat, EncodeFields, Overwrite;
      ChatParts(Value());
      OverwriteTwice(target[..], at, EncodeFields(IdFields(playerId)) + EncodeFields(StringFields(msg)),
                     EncodeFields(unknown));
      next := WriteIdAndString(playerId, msg, target, at, depth);
      next := Serialize(unknown, target, next, depth);
    }
  }

  lemma NoFields()
    ensures EncodeFields([]) == []
  {
  }

  lemma ChatParts(x: ChatValue)
    ensures EncodeChat(x)
            == EncodeFields(IdFields(x.playerId)) + EncodeFields(StringFields(x.msg)) + EncodeFields(x.unknown)
  {
    EncodeConcat(IdFields(x.playerId), StringFields(x.msg));
    EncodeConcat(IdFields(x.playerId) + StringFields(x.msg), x.unknown);
  }

  lemma PlayerIdStep(x: ChatValue, s: seq<Byte>, q: nat, end: nat, depth: nat, k: nat, v: Option<(nat, nat)>)
    requires q < end <= |s| && Tag(s[q..end]) == Some((8, k)) && q + k <= end && v == Varint64(s[q + k..end])
    ensures v.None? ==> Stepped(ApplyChat, x, x, s, q, end, depth, None)
    ensures v.Some? ==> Stepped(ApplyChat, x, x.(playerId := v.value.0), s, q, end, depth, Some(q + k + v.value.1))
  {
    hide Parse, Tag, Varint64;
    VarintRead(s[q + k..end], 1, depth);
    FieldStep(ApplyChat, x, s, q, end, depth, 8, k, AsVarint(1, v));
  }

  lemma MsgStep(x: ChatValue, s: seq<Byte>, q: nat, end: nat, depth: nat, k: nat, str: Option<(seq<Byte>, nat)>)
    requires q < end <= |s| && Tag(s[q..end]) == Some((18, k)) && q + k <= end && str == ReadBytes(s[q + k..end])
    ensures str.None? ==> Stepped(ApplyChat, x, x, s, q, end, depth, None)
    ensures str.Some? ==>
              Stepped(ApplyChat, x, x.(msg := str.value.0), s, q, end, depth,
                      if Utf8(str.value.0) then Some(q + k + str.value.1) else None)
  {
    hide Parse, Tag, ReadBytes, Utf8;
    DelimitedRead(s[q + k..end], 2, depth);
    FieldStep(ApplyChat, x, s, q, end, depth, 18, k, AsDelimited(2, str));
  }

  lemma ChatUnusual(s: seq<Byte>, t: nat, depth: nat)
    requires t != 8 && t != 18
    ensures var r := ReadBody(s, t / 8, t % 8, depth); r.Some? ==> !ChatKnows(r.value.0)
  {
  }
}
