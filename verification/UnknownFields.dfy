/**
 The fields a message does not know: parsed into a list as they come, sized, and written out in the
 same order. Groups recurse, with a limit on how deep.
 */
module UnknownFields {
  import opened Common
  import opened Varint
  import opened Wire
  import opened Output

  /** InlineGreedyStringParser: a size and that many bytes before the limit. */
  method ReadString(s: seq<Byte>, p: nat, end: nat) returns (r: Option<(seq<Byte>, nat)>)
    requires p <= end <= |s|
    ensures r == ReadBytes(s[p..end])
  {
    var size := ReadSize(s, p, end);
    match size {
      case None => return None;
      case Some((n, k)) =>
        if end - p - k < n { return None; }
        SliceAgain(s, p, end, k, n);
        return Some((s[p + k..p + k + n], k + n));
    }
  }

  lemma SliceAgain(s: seq<Byte>, p: nat, end: nat, k: nat, n: nat)
    requires p + k + n <= end <= |s|
    ensures s[p..end][k..k + n] == s[p + k..p + k + n]
  {
    var t := s[p..end];
    var a, b := t[k..k + n], s[p + k..p + k + n];
    forall i | 0 <= i < n
      ensures a[i] == b[i]
    {
      assert a[i] == t[k + i] == s[p + (k + i)];
    }
  }

  lemma DropAgain(s: seq<Byte>, p: nat, end: nat, k: nat)
    requires p + k <= end <= |s|
    ensures s[p..end][k..] == s[p + k..end]
  {
  }

  lemma TakeAgain(s: seq<Byte>, p: nat, end: nat, k: nat)
    requires p + k <= end <= |s|
    ensures s[p..end][..k] == s[p..p + k]
  {
  }

  /** FieldParser: the body of a field whose tag has been read. */
  method ParseField(tag: nat, s: seq<Byte>, p: nat, end: nat, depth: nat) returns (r: Option<(Field, nat)>)
    requires p <= end <= |s|
    ensures r == if tag / 8 == 0 then None else ReadBody(s[p..end], tag / 8, tag % 8, depth)
    decreases depth, 0
  {
    var num := tag / 8;
    if num == 0 { return None; }
    if tag % 8 == 0 {
      var v := ReadVarint64(s, p, end);
      return if v.None? then None else Some((VarintField(num, v.value.0), v.value.1));
    } else if tag % 8 == 1 {
      if end - p < 8 { return None; }
      TakeAgain(s, p, end, 8);
      return Some((Fixed64Field(num, s[p..p + 8]), 8));
    } else if tag % 8 == 2 {
      var data := ReadString(s, p, end);
      return if data.None? then None else Some((Delimited(num, data.value.0), data.value.1));
    } else if tag % 8 == 3 {
      if depth == 0 { return None; }
      var fields := ParseGroup(num, s, p, end, depth - 1);
      return if fields.None? then None else Some((Group(num, fields.value.0), fields.value.1));
    } else if tag % 8 == 5 {
      if end - p < 4 { return None; }
      TakeAgain(s, p, end, 4);
      return Some((Fixed32Field(num, s[p..p + 4]), 4));
    } else {
      return None;
    }
  }

  /** What a reader has to add to what it will still read. */
  function Prepend(fs: seq<Field>, n: nat, r: Option<(seq<Field>, nat)>): Option<(seq<Field>, nat)> {
    match r case None => None case Some((gs, m)) => Some((fs + gs, n + m))
  }

  lemma PrependNothing(r: Option<(seq<Field>, nat)>)
    ensures Prepend([], 0, r) == r
  {
    match r case None => case Some((gs, m)) => assert [] + gs == gs;
  }

  /** What one round of a group finds: nothing it can use, its end tag, or one more field. */
  datatype Step = Failed | Ended(size: nat) | More(field: Field, size: nat)

  /** What that says about the group as a whole. */
  ghost function Outcome(step: Step, s: seq<Byte>, num: nat, depth: nat): Option<(seq<Field>, nat)> {
    match step
    case Failed => None
    case Ended(k) => Some(([], k))
    case More(f, m) => if m <= |s| then Prepend([f], m, ReadGroup(s[m..], num, depth)) else None
  }

  /** One round of WireFormatParser: a tag, and unless it ends the group, a field. */
  method NextOfGroup(num: nat, s: seq<Byte>, q: nat, end: nat, depth: nat) returns (step: Step)
    requires q <= end <= |s|
    ensures ReadGroup(s[q..end], num, depth) == Outcome(step, s[q..end], num, depth)
    ensures step.More? ==> 0 < step.size <= end - q
    decreases depth, 1
  {
    hide Tag, ReadBody;
    var tag := ReadTag(s, q, end);
    if tag.None? { return Failed; }
    var (t, k) := tag.value;
    if t == 0 || t % 8 == 4 {
      GroupStops(s[q..end], num, depth);
      return if t == num * 8 + 4 then Ended(k) else Failed;
    }
    var field := ParseField(t, s, q + k, end, depth);
    DropAgain(s, q, end, k);
    FieldIs(s[q..end], depth, t, k, field);
    GroupContinues(s[q..end], num, depth);
    return if field.None? then Failed else More(field.value.0, k + field.value.1);
  }

  /** WireFormatParser under ParseGroup: fields up to an end tag, which has to be the group's own. */
  method ParseGroup(num: nat, s: seq<Byte>, p: nat, end: nat, depth: nat) returns (r: Option<(seq<Field>, nat)>)
    requires p <= end <= |s|
    ensures r == ReadGroup(s[p..end], num, depth)
    decreases depth, 2
  {
    hide ReadGroup, Outcome;
    ghost var whole := ReadGroup(s[p..end], num, depth);
    PrependNothing(whole);
    var fields: seq<Field>, q, step := [], p, More(VarintField(0, 0), 0);
    while q < end && step.More?
      invariant p <= q <= end
      invariant step.More? ==> whole == Prepend(fields, q - p, ReadGroup(s[q..end], num, depth))
      invariant !step.More? ==> whole == if step.Failed? then None else Some((fields, q - p + step.size))
      decreases end - q, step.More?
    {
      step := NextOfGroup(num, s, q, end, depth);
      Advance(s, q, end, num, depth, fields, q - p, step);
      if step.More? {
        fields, q := fields + [step.field], q + step.size;
      }
    }
    if step.More? { EmptyGroup(s[q..end], num, depth); }
    return if step.Ended? then Some((fields, q - p + step.size)) else None;
  }

  /** Putting the outcome of a round behind what was read before. */
  lemma Advance(s: seq<Byte>, q: nat, end: nat, num: nat, depth: nat, fields: seq<Field>, n: nat, step: Step)
    requires q <= end <= |s| && (step.More? ==> step.size <= end - q)
    ensures step.Failed? ==> Prepend(fields, n, Outcome(step, s[q..end], num, depth)) == None
    ensures step.Ended? ==> Prepend(fields, n, Outcome(step, s[q..end], num, depth)) == Some((fields, n + step.size))
    ensures step.More? ==>
              Prepend(fields, n, Outcome(step, s[q..end], num, depth))
              == Prepend(fields + [step.field], n + step.size, ReadGroup(s[q + step.size..end], num, depth))
  {
    match step
    case Failed =>
    case Ended(k) => assert fields + [] == fields;
    case More(f, m) =>
      DropAgain(s, q, end, m);
      PrependTwice(fields, n, f, m, ReadGroup(s[q + m..end], num, depth));
  }

  lemma PrependTwice(fs: seq<Field>, n: nat, f: Field, m: nat, r: Option<(seq<Field>, nat)>)
    ensures Prepend(fs, n, Prepend([f], m, r)) == Prepend(fs + [f], n + m, r)
  {
    match r case None => case Some((gs, _)) => assert fs + ([f] + gs) == fs + [f] + gs;
  }

  lemma EmptyGroup(s: seq<Byte>, num: nat, depth: nat)
    requires s == []
    ensures ReadGroup(s, num, depth) == None
  {
  }

  lemma GroupStops(s: seq<Byte>, num: nat, depth: nat)
    requires Tag(s).Some? && (Tag(s).value.0 == 0 || Tag(s).value.0 % 8 == 4)
    ensures ReadGroup(s, num, depth) == if Tag(s).value.0 == num * 8 + 4 then Some(([], Tag(s).value.1)) else None
  {
  }

  lemma FieldIs(s: seq<Byte>, depth: nat, t: nat, k: nat, field: Option<(Field, nat)>)
    requires Tag(s) == Some((t, k))
    requires field == if t / 8 == 0 then None else ReadBody(s[k..], t / 8, t % 8, depth)
    ensures ReadField(s, depth) == After(k, field)
  {
  }

  lemma GroupContinues(s: seq<Byte>, num: nat, depth: nat)
    requires Tag(s).Some? && Tag(s).value.0 != 0 && Tag(s).value.0 % 8 != 4
    ensures var r := ReadField(s, depth);
            ReadGroup(s, num, depth) ==
            if r.None? then None
            else Prepend([r.value.0], r.value.1, ReadGroup(s[r.value.1..], num, depth))
  {
  }

  // ----- sizes -----

  /** TagSize */
  function TagSize(num: nat, wireType: nat): nat {
    VarintSize(num * 8 + wireType)
  }

  lemma TagSizeExact(num: nat, wireType: nat)
    requires num <= MAX_NUMBER && wireType < 8
    ensures TagSize(num, wireType) == |EncodeTag(num, wireType)|
  {
    VarintSizeExact(num * 8 + wireType);
  }

  /** ComputeUnknownFieldsSize */
  method ComputeSize(fs: seq<Field>, ghost depth: nat) returns (size: nat)
    requires AllWellFormed(fs, depth)
    ensures size == |EncodeFields(fs)|
    decreases fs
  {
    size := 0;
    var i := 0;
    assert fs[0..] == fs;
    while i < |fs|
      invariant 0 <= i <= |fs| && AllWellFormed(fs[i..], depth)
      invariant size + |EncodeFields(fs[i..])| == |EncodeFields(fs)|
    {
      assert fs[i..][1..] == fs[i + 1..];
      var one := ComputeFieldSize(fs[i], depth);
      size := size + one;
      i := i + 1;
    }
  }

  method ComputeFieldSize(f: Field, ghost depth: nat) returns (size: nat)
    requires WellFormed(f, depth)
    ensures size == |EncodeField(f)|
    decreases f
  {
    TagThenBody(f, []);
    TagSizeExact(f.num, WireType(f));
    match f {
      case VarintField(num, value) =>
        VarintSizeExact(value);
        size := TagSize(num, 0) + VarintSize(value);
      case Fixed64Field(num, bytes) =>
        size := TagSize(num, 1) + 8;
      case Delimited(num, data) =>
        VarintSizeExact(|data|);
        size := TagSize(num, 2) + VarintSize(|data|) + |data|;
      case Group(num, fields) =>
        TagSizeExact(num, 4);
        var inner := ComputeSize(fields, depth - 1);
        size := TagSize(num, 3) + inner + TagSize(num, 4);
      case Fixed32Field(num, bytes) =>
        size := TagSize(num, 5) + 4;
    }
  }

  // ----- writing -----

  method WriteTag(num: nat, wireType: nat, target: array<Byte>, at: nat) returns (next: nat)
    requires at + |EncodeTag(num, wireType)| <= target.Length
    modifies target
    ensures next == at + |EncodeTag(num, wireType)|
    ensures target[..] == Overwrite(old(target[..]), at, EncodeTag(num, wireType))
  {
    next := WriteVarint(num * 8 + wireType, target, at);
  }

  /** WriteString: tag, size as 32 bits, contents. */
  method WriteString(num: nat, data: seq<Byte>, target: array<Byte>, at: nat) returns (next: nat)
    requires |data| < TWO_TO_32 && at + |EncodeField(Delimited(num, data))| <= target.Length
    modifies target
    ensures next == at + |EncodeField(Delimited(num, data))|
    ensures target[..] == Overwrite(old(target[..]), at, EncodeField(Delimited(num, data)))
  {
    hide Overwrite, EncodeTag, Encode;
    ghost var before := target[..];
    var size := |data| % TWO_TO_32;
    assert size == |data|;
    OverwriteThrice(before, at, EncodeTag(num, 2), Encode(size), data);
    next := WriteTag(num, 2, target, at);
    next := WriteVarint(size, target, next);
    next := WriteRaw(data, target, next);
  }

  lemma OverwriteThrice(s: seq<Byte>, at: nat, xs: seq<Byte>, ys: seq<Byte>, zs: seq<Byte>)
    requires at + |xs| + |ys| + |zs| <= |s|
    ensures Overwrite(Overwrite(Overwrite(s, at, xs), at + |xs|, ys), at + |xs| + |ys|, zs)
            == Overwrite(s, at, xs + (ys + zs))
  {
    OverwriteTwice(s, at, xs, ys);
    OverwriteTwice(s, at, xs + ys, zs);
    Associate(xs, ys, zs);
  }

  /** InternalSerializeUnknownFieldsToArray */
  method Serialize(fs: seq<Field>, target: array<Byte>, at: nat, ghost depth: nat) returns (next: nat)
    requires AllWellFormed(fs, depth) && at + |EncodeFields(fs)| <= target.Length
    modifies target
    ensures next == at + |EncodeFields(fs)|
    ensures target[..] == Overwrite(old(target[..]), at, EncodeFields(fs))
    decreases fs, 0
  {
    ghost var before := target[..];
    next := at;
    var i := 0;
    assert fs[..0] == [] && fs[0..] == fs;
    assert before == Overwrite(before, at, EncodeFields([]));
    while i < |fs|
      invariant 0 <= i <= |fs| && AllWellFormed(fs[i..], depth)
      invariant next == at + |EncodeFields(fs[..i])|
                && |EncodeFields(fs[..i])| + |EncodeFields(fs[i..])| == |EncodeFields(fs)|
      invariant target[..] == Overwrite(before, at, EncodeFields(fs[..i]))
    {
      EncodeOneMore(fs, i);
      next := SerializeField(fs[i], target, next, depth);
      OverwriteTwice(before, at, EncodeFields(fs[..i]), EncodeField(fs[i]));
      i := i + 1;
    }
    assert fs[..i] == fs;
  }

  lemma EncodeOneMore(fs: seq<Field>, i: nat)
    requires i < |fs|
    ensures EncodeFields(fs[..i + 1]) == EncodeFields(fs[..i]) + EncodeField(fs[i])
    ensures fs[i..][0] == fs[i] && fs[i..][1..] == fs[i + 1..]
  {
    assert fs[..i + 1] == fs[..i] + [fs[i]];
    EncodeConcat(fs[..i], [fs[i]]);
    assert EncodeFields([fs[i]]) == EncodeField(fs[i]) by { assert [fs[i]][1..] == []; }
  }

  method SerializeField(f: Field, target: array<Byte>, at: nat, ghost depth: nat) returns (next: nat)
    requires WellFormed(f, depth) && at + |EncodeField(f)| <= target.Length
    modifies target
    ensures next == at + |EncodeField(f)|
    ensures target[..] == Overwrite(old(target[..]), at, EncodeField(f))
    decreases f, 0
  {
    hide Overwrite, EncodeTag, Encode;
    ghost var before, tag := target[..], EncodeTag(f.num, WireType(f));
    TagThenBody(f, []);
    match f {
      case VarintField(num, value) =>
        next := WriteTag(num, 0, target, at);
        next := WriteVarint(value, target, next);
        OverwriteTwice(before, at, tag, Encode(value));
      case Fixed64Field(num, bytes) =>
        next := WriteTag(num, 1, target, at);
        next := WriteRaw(bytes, target, next);
        OverwriteTwice(before, at, tag, bytes);
      case Delimited(num, data) =>
        next := WriteString(num, data, target, at);
      case Group(num, fields) =>
        next := SerializeGroup(num, fields, target, at, depth);
      case Fixed32Field(num, bytes) =>
        next := WriteTag(num, 5, target, at);
        next := WriteRaw(bytes, target, next);
        OverwriteTwice(before, at, tag, bytes);
    }
  }

  method SerializeGroup(num: nat, fields: seq<Field>, target: array<Byte>, at: nat, ghost depth: nat)
    returns (next: nat)
    requires WellFormed(Group(num, fields), depth)
    requires at + |EncodeTag(num, 3)| + |EncodeFields(fields)| + |EncodeTag(num, 4)| <= target.Length
    modifies target
    ensures next == at + |EncodeTag(num, 3)| + |EncodeFields(fields)| + |EncodeTag(num, 4)|
    ensures target[..] == Overwrite(old(target[..]), at, EncodeTag(num, 3) + (EncodeFields(fields) + EncodeTag(num, 4)))
    decreases fields, 1
  {
    hide Overwrite, EncodeTag, EncodeFields;
    OverwriteThrice(target[..], at, EncodeTag(num, 3), EncodeFields(fields), EncodeTag(num, 4));
    next := WriteTag(num, 3, target, at);
    next := Serialize(fields, target, next, depth - 1);
    next := WriteTag(num, 4, target, next);
  }
}
