/**
 The generated class S_LOGIN: a flag and a list of players, each parsed by its own message into a
 freshly added element. Consecutive players are taken in an inner loop that looks one byte ahead.
 */
module LoginMessage {
  import opened Common
  import opened Varint
  import opened Wire
  import opened Output
  import opened UnknownFields
  import opened MessageValues
  import opened PlayerMessage

  const RECURSION_LIMIT: nat := 100

  function ValuesOf(players: seq<Player>): seq<PlayerValue>
    reads players`id, players`name, players`playerType, players`unknown
  {
    if players == [] then [] else [players[0].Value()] + ValuesOf(players[1..])
  }

  lemma {:induction false} ValuesAt(players: seq<Player>, i: nat)
    requires i < |players|
    ensures |ValuesOf(players)| == |players| && ValuesOf(players)[i] == players[i].Value()
  {
    if i > 0 {
      ValuesAt(players[1..], i - 1);
    } else if |players| > 1 {
      ValuesAt(players[1..], 0);
    }
  }

  lemma {:induction false} ValuesPush(players: seq<Player>, p: Player)
    ensures ValuesOf(players + [p]) == ValuesOf(players) + [p.Value()]
  {
    if players == [] {
      assert [p][1..] == [] && players + [p] == [p];
    } else {
      assert (players + [p])[1..] == players[1..] + [p];
      ValuesPush(players[1..], p);
    }
  }

  lemma ValuesLength(players: seq<Player>)
    ensures |ValuesOf(players)| == |players|
  {
    if players != [] { ValuesAt(players, 0); }
  }

  lemma PushOne<T>(xs: seq<T>, ys: seq<T>, i: nat)
    requires i < |ys|
    ensures xs + ys[..i] + [ys[i]] == xs + ys[..i + 1]
  {
  }

  method CopyOf(from: Player) returns (p: Player)
    ensures fresh(p) && p.Value() == from.Value()
  {
    p := new Player();
    MergeIntoNothing(from.Value());
    p.MergeFrom(from);
  }

  /** GetCachedSize is the size of the player as it is now. */
  ghost predicate SizeCached(p: Player)
    reads p
  {
    IsInt32(p.playerType) && p.cachedSize == |EncodePlayer(p.Value())|
  }

  ghost predicate SizesCached(players: seq<Player>)
    reads players
  {
    forall k :: 0 <= k < |players| ==> SizeCached(players[k])
  }

  lemma {:induction false} PlayersConcat(xs: seq<PlayerValue>, p: PlayerValue)
    requires TypesOk(xs) && IsInt32(p.playerType)
    ensures TypesOk(xs + [p]) && PlayersFields(xs + [p]) == PlayersFields(xs) + [Delimited(2, EncodePlayer(p))]
    decreases |xs|
  {
    hide EncodePlayer, IsInt32;
    if xs == [] {
      assert xs + [p] == [p] && [p][1..] == [];
    } else {
      assert (xs + [p])[1..] == xs[1..] + [p];
      PlayersConcat(xs[1..], p);
    }
  }

  lemma PlayersFieldsPush(values: seq<PlayerValue>, i: nat)
    requires TypesOk(values) && i < |values|
    ensures PlayersFields(values[..i + 1]) == PlayersFields(values[..i]) + [Delimited(2, EncodePlayer(values[i]))]
    ensures EncodeFields(PlayersFields(values[..i + 1]))
            == EncodeFields(PlayersFields(values[..i])) + EncodeField(Delimited(2, EncodePlayer(values[i])))
  {
    assert values[..i + 1] == values[..i] + [values[i]];
    PlayersConcat(values[..i], values[i]);
    EncodeConcat(PlayersFields(values[..i]), [Delimited(2, EncodePlayer(values[i]))]);
    EncodeOne(Delimited(2, EncodePlayer(values[i])));
  }

  lemma NoPlayersYet(values: seq<PlayerValue>)
    ensures EncodeFields(PlayersFields(values[..0])) == []
  {
    assert values[..0] == [];
  }

  lemma OneMorePlayer(values: seq<PlayerValue>, i: nat)
    requires TypesOk(values) && i < |values| && |EncodePlayer(values[i])| < TWO_TO_32
    ensures var n := |EncodePlayer(values[i])|;
            |EncodeFields(PlayersFields(values[..i + 1]))|
              == |EncodeFields(PlayersFields(values[..i]))| + 1 + (n + VarintSize(n % TWO_TO_32))
  {
    PlayersFieldsPush(values, i);
    EncodeOne(Delimited(2, EncodePlayer(values[i])));
    StringFieldSize(2, EncodePlayer(values[i]));
  }

  lemma SuccessSize(success: bool)
    ensures |EncodeFields(SuccessFields(success))| == if success then 1 + 1 else 0
  {
    VarintFieldSize(1, 1);
  }

  lemma LoginTypes(x: LoginValue, depth: nat)
    requires LoginSized(x, depth)
    ensures TypesOk(x.players)
  {
  }

  lemma LoginParts(x: LoginValue)
    requires TypesOk(x.players)
    ensures EncodeLogin(x)
            == EncodeFields(SuccessFields(x.success)) + EncodeFields(PlayersFields(x.players)) + EncodeFields(x.unknown)
  {
    EncodeConcat(SuccessFields(x.success), PlayersFields(x.players));
    EncodeConcat(SuccessFields(x.success) + PlayersFields(x.players), x.unknown);
  }

  class Login {
    var success: bool
    var players: seq<Player>
    var unknown: seq<Field>
    var cachedSize: nat

    function Value(): LoginValue
      reads this`success, this`players, this`unknown, players`id, players`name, players`playerType, players`unknown
    {
      LoginValue(success, ValuesOf(players), unknown)
    }

    constructor ()
      ensures Value() == NO_LOGIN && players == []
    {
      success, players, unknown, cachedSize := false, [], [], 0;
    }

    method Clear()
      modifies this
      ensures Value() == NO_LOGIN && players == []
    {
      players := [];
      success := false;
      unknown := [];
    }

    method MergeFrom(from: Login)
      requires from != this
      modifies this
      ensures Value() == MergeLogin(old(Value()), old(from.Value()))
      ensures forall p :: p in players ==> p in old(players) || fresh(p)
    {
      AddCopies(from.players);
      if from.success {
        success := true;
      }
      unknown := unknown + from.unknown;
    }

    /** RepeatedPtrField::MergeFrom: each element is merged into a new one. */
    method AddCopies(from: seq<Player>)
      modifies this`players
      ensures ValuesOf(players) == old(ValuesOf(players)) + old(ValuesOf(from))
      ensures forall p :: p in players ==> p in old(players) || fresh(p)
    {
      hide ValuesOf;
      ghost var mine, theirs := ValuesOf(players), ValuesOf(from);
      ValuesLength(from);
      assert mine + theirs[..0] == mine;
      var i := 0;
      while i < |from|
        invariant 0 <= i <= |from| == |theirs| && ValuesOf(from) == theirs
        invariant ValuesOf(players) == mine + theirs[..i]
        invariant forall p :: p in players ==> p in old(players) || fresh(p)
      {
        ValuesAt(from, i);
        var p := CopyOf(from[i]);
        ValuesPush(players, p);
        PushOne(mine, theirs, i);
        players := players + [p];
        i := i + 1;
      }
      assert theirs[..i] == theirs;
    }

    method CopyFrom(from: Login)
      modifies this
      ensures Value() == old(from.Value())
    {
      if from == this { return; }
      Clear();
      MergeLoginIntoNothing(from.Value());
      MergeFrom(from);
    }

    /** Parse s[p..end] into this message. `seam` is where the parser has to look at its buffers again; it decides
        how players are taken, not what the result is. */
    method InternalParse(s: seq<Byte>, p: nat, end: nat, seam: nat, depth: nat) returns (ok: bool)
      requires p <= end <= |s|
      modifies this
      ensures ok == Parse(LoginAt(depth), old(Value()), s[p..end], depth).Some?
      ensures ok ==> Parse(LoginAt(depth), old(Value()), s[p..end], depth) == Some(Value())
      ensures forall x :: x in players ==> x in old(players) || fresh(x)
    {
      ghost var whole := Parse(LoginAt(depth), Value(), s[p..end], depth);
      var q := p;
      ok := true;
      while q < end && ok
        invariant p <= q <= end
        invariant if ok then whole == Parse(LoginAt(depth), Value(), s[q..end], depth) else whole == None
        invariant forall x :: x in players ==> x in old(players) || fresh(x)
        decreases end - q, ok
      {
        var next := ParseOne(s, q, end, seam, depth);
        ok := next.Some?;
        q := if ok then next.value else q;
      }
      assert ok ==> s[q..end] == [];
    }

    /** One round of the parse loop, which may take several players. */
    method ParseOne(s: seq<Byte>, q: nat, end: nat, seam: nat, depth: nat) returns (next: Option<nat>)
      requires q < end <= |s|
      modifies this
      ensures Stepped(LoginAt(depth), old(Value()), Value(), s, q, end, depth, next)
      ensures forall x :: x in players ==> x in old(players) || fresh(x)
    {
      hide Parse, Tag, ReadBytes, Varint64, PlayerBody;
      ghost var before := Value();
      var tag := ReadTag(s, q, end);
      if tag.None? {
        NoTagStep(LoginAt(depth), before, s, q, end, depth);
        return None;
      }
      var (t, k) := tag.value;
      if t / 8 == 1 && t % 256 == 8 {
        var v := ReadVarint64(s, q + k, end);
        SuccessStep(before, s, q, end, depth, k, v);
        if v.None? { return None; }
        success := v.value.0 != 0;
        return Some(q + k + v.value.1);
      } else if t / 8 == 2 && t % 256 == 18 {
        PlayersStep(before, s, q, end, depth, k);
        next := ParsePlayers(s, q + k, end, seam, depth);
      } else {
        next := ParseUnusual(t, k, s, q, end, depth);
      }
    }

    method ParseUnusual(t: nat, k: nat, s: seq<Byte>, q: nat, end: nat, depth: nat) returns (next: Option<nat>)
      requires q < end <= |s| && Tag(s[q..end]) == Some((t, k)) && q + k <= end && t != 8 && t != 18
      modifies this`unknown
      ensures Stepped(LoginAt(depth), old(Value()), Value(), s, q, end, depth, next)
    {
      if t == 0 || t % 8 == 4 {
        EndTagStep(LoginAt(depth), Value(), s, q, end, depth, t, k);
        return None;
      }
      var f := ParseField(t, s, q + k, end, depth);
      LoginUnusual(s[q + k..end], t, depth);
      FieldStep(LoginAt(depth), Value(), s, q, end, depth, t, k, f);
      if f.None? { return None; }
      unknown := unknown + [f.value.0];
      return Some(q + k + f.value.1);
    }

    /** The inner loop: as long as the next byte in sight is the players tag, the next player is taken at once. */
    method ParsePlayers(s: seq<Byte>, q: nat, end: nat, seam: nat, depth: nat) returns (next: Option<nat>)
      requires q <= end <= |s|
      modifies this`players
      ensures Continued(PlayerBody(old(Value()), s[q..end], depth), Value(), s, q, end, depth, next)
      ensures forall x :: x in players ==> x in old(players) || fresh(x)
    {
      hide Parse, PlayerBody;
      ghost var whole := PlayerBody(Value(), s[q..end], depth);
      var ptr, going := q, true;
      while going
        invariant q <= ptr <= end && (!going ==> q < ptr)
        invariant whole ==
                  if going then PlayerBody(Value(), s[ptr..end], depth)
                  else Parse(LoginAt(depth), Value(), s[ptr..end], depth)
        invariant forall x :: x in players ==> x in old(players) || fresh(x)
        decreases end - ptr, going
      {
        var r := AddPlayer(s, ptr, end, depth);
        if r.None? { return None; }
        ptr, going := r.value, false;
        if ptr < end && ptr < seam && s[ptr] == 18 {
          NextPlayer(Value(), s, ptr, end, depth);
          ptr, going := ptr + 1, true;
        }
      }
      return Some(ptr);
    }

    /** ParseMessage into a new element. */
    method AddPlayer(s: seq<Byte>, q: nat, end: nat, depth: nat) returns (next: Option<nat>)
      requires q <= end <= |s|
      modifies this`players
      ensures Continued(PlayerBody(old(Value()), s[q..end], depth), Value(), s, q, end, depth, next)
      ensures forall x :: x in players ==> x in old(players) || fresh(x)
    {
      ghost var before, others := Value(), players;
      var player := new Player();
      players := players + [player];
      next := ParseMessage(player, s, q, end, depth, before);
      ValuesPush(others, player);
    }

    /** The size this message will take; every player's size is cached on the way. */
    method ByteSizeLong(ghost depth: nat) returns (size: nat)
      requires LoginSized(Value(), depth)
      modifies this`cachedSize, players`cachedSize
      ensures Value() == old(Value())
      ensures size == cachedSize == |EncodeLogin(Value())|
      ensures SizesCached(players)
    {
      hide EncodeLogin, EncodeFields, PlayersFields, PlayerSized;
      LoginTypes(Value(), depth);
      LoginParts(Value());
      SuccessSize(success);
      size := SizeOfPlayers(depth);
      if success {
        size := size + (1 + 1);
      }
      var more := ComputeSize(unknown, depth);
      size := size + more;
      cachedSize := size;
    }

    /** One tag byte, a size and the message, for each player. */
    method SizeOfPlayers(ghost depth: nat) returns (size: nat)
      requires LoginSized(Value(), depth)
      modifies players`cachedSize
      ensures TypesOk(ValuesOf(players)) && size == |EncodeFields(PlayersFields(ValuesOf(players)))|
      ensures SizesCached(players)
    {
      hide EncodeFields, PlayersFields, EncodePlayer, VarintSize;
      ghost var values := ValuesOf(players);
      NoPlayersYet(values);
      ValuesLength(players);
      size := 1 * |players|;
      var i := 0;
      while i < |players|
        invariant 0 <= i <= |players| == |values| && ValuesOf(players) == values
        invariant size == |players| - i + |EncodeFields(PlayersFields(values[..i]))|
        invariant forall k :: 0 <= k < i ==> SizeCached(players[k])
      {
        ValuesAt(players, i);
        var n := players[i].ByteSizeLong(depth - 1);
        OneMorePlayer(values, i);
        size := size + (n + VarintSize(n % TWO_TO_32));
        i := i + 1;
      }
      assert values[..i] == values;
    }

    /** Write the flag, then each player behind its cached size, then the unknown fields. */
    method InternalSerialize(target: array<Byte>, at: nat, ghost depth: nat) returns (next: nat)
      requires LoginSized(Value(), depth) && SizesCached(players)
      requires TypesOk(ValuesOf(players)) && at + |EncodeLogin(Value())| <= target.Length
      modifies target
      ensures next == at + |EncodeLogin(Value())|
      ensures target[..] == Overwrite(old(target[..]), at, EncodeLogin(Value()))
    {
      hide EncodeLogin, EncodeFields, PlayersFields, SuccessFields, PlayerSized, Overwrite, AllWellFormed, TypesOk;
      ghost var flag, list := EncodeFields(SuccessFields(success)), EncodeFields(PlayersFields(ValuesOf(players)));
      ghost var before := target[..];
      LoginParts(Value());
      OverwriteTwice(before, at, flag, list);
      OverwriteTwice(before, at, flag + list, EncodeFields(unknown));
      next := WriteSuccess(success, target, at);
      next := WritePlayers(target, next, depth);
      next := Serialize(unknown, target, next, depth);
    }

    method WritePlayers(target: array<Byte>, at: nat, ghost depth: nat) returns (next: nat)
      requires LoginSized(Value(), depth) && SizesCached(players) && TypesOk(ValuesOf(players))
      requires at + |EncodeFields(PlayersFields(ValuesOf(players)))| <= target.Length
      modifies target
      ensures next == at + |EncodeFields(PlayersFields(ValuesOf(players)))|
      ensures target[..] == Overwrite(old(target[..]), at, EncodeFields(PlayersFields(ValuesOf(players))))
    {
      hide EncodeFields, PlayersFields, EncodePlayer, Overwrite, EncodeField;
      ghost var values, before := ValuesOf(players), target[..];
      NoPlayersYet(values);
      NothingWritten(before, at);
      ValuesLength(players);
      next := at;
      var i := 0;
      while i < |players|
        invariant 0 <= i <= |players| == |values| && ValuesOf(players) == values
        invariant |EncodeFields(PlayersFields(values[..i]))| <= |EncodeFields(PlayersFields(values))|
        invariant next == at + |EncodeFields(PlayersFields(values[..i]))|
        invariant target[..] == Overwrite(before, at, EncodeFields(PlayersFields(values[..i])))
      {
        ValuesAt(players, i);
        PlayersFieldsPush(values, i);
        PlayersFit(values, i);
        OverwriteTwice(before, at, EncodeFields(PlayersFields(values[..i])),
                       EncodeField(Delimited(2, EncodePlayer(values[i]))));
        next := WriteMessage(players[i], target, next, depth - 1);
        i := i + 1;
      }
      assert values[..i] == values;
    }

    /** SerializePartialToArray: size the message, and write it if it fits in the `room` bytes at `at`. */
    method SerializeToArray(target: array<Byte>, at: nat, room: nat, ghost depth: nat) returns (ok: bool)
      requires LoginSized(Value(), depth) && at + room <= target.Length
      modifies this`cachedSize, players`cachedSize, target
      ensures Value() == old(Value()) && TypesOk(ValuesOf(players))
      ensures ok <==> |EncodeLogin(Value())| <= INT_MAX && |EncodeLogin(Value())| <= room
      ensures target[..] == if ok then Overwrite(old(target[..]), at, EncodeLogin(Value())) else old(target[..])
    {
      hide EncodeLogin, PlayerSized, Overwrite;
      LoginTypes(Value(), depth);
      var size := ByteSizeLong(depth);
      ok := size <= INT_MAX && size <= room;
      if ok {
        var end := InternalSerialize(target, at, depth);
      }
    }

    /** ParseFromArray: start from an empty message, and succeed only at the end of the bytes. */
    method ParseFromArray(s: seq<Byte>, p: nat, end: nat) returns (ok: bool)
      requires p <= end <= |s|
      modifies this
      ensures ok == Parse(LoginAt(RECURSION_LIMIT), NO_LOGIN, s[p..end], RECURSION_LIMIT).Some?
      ensures ok ==> Parse(LoginAt(RECURSION_LIMIT), NO_LOGIN, s[p..end], RECURSION_LIMIT) == Some(Value())
    {
      Clear();
      ok := InternalParse(s, p, end, if end - p > SLOP then end - SLOP else end, RECURSION_LIMIT);
    }
  }

  /** InternalWriteMessage: tag, cached size, contents. */
  method WriteMessage(p: Player, target: array<Byte>, at: nat, ghost depth: nat) returns (next: nat)
    requires PlayerSized(p.Value(), depth) && SizeCached(p) && |EncodePlayer(p.Value())| < TWO_TO_32
    requires at + |EncodeField(Delimited(2, EncodePlayer(p.Value())))| <= target.Length
    modifies target
    ensures next == at + |EncodeField(Delimited(2, EncodePlayer(p.Value())))|
    ensures target[..] == Overwrite(old(target[..]), at, EncodeField(Delimited(2, EncodePlayer(p.Value()))))
  {
    hide EncodePlayer, Overwrite;
    var size := p.cachedSize % TWO_TO_32;
    assert size == |EncodePlayer(p.Value())|;
    OverwriteThrice(target[..], at, EncodeTag(2, 2), Encode(size), EncodePlayer(p.Value()));
    next := WriteTag(2, 2, target, at);
    next := WriteVarint(size, target, next);
    next := p.InternalSerialize(target, next, depth);
  }

  method WriteSuccess(success: bool, target: array<Byte>, at: nat) returns (next: nat)
    requires at + |EncodeFields(SuccessFields(success))| <= target.Length
    modifies target
    ensures next == at + |EncodeFields(SuccessFields(success))|
    ensures target[..] == Overwrite(old(target[..]), at, EncodeFields(SuccessFields(success)))
  {
    next := at;
    if success {
      EncodeOne(VarintField(1, 1));
      next := SerializeField(VarintField(1, 1), target, at, 0);
    }
  }

  lemma NothingWritten(s: seq<Byte>, at: nat)
    requires at <= |s|
    ensures Overwrite(s, at, []) == s
  {
  }

  /** The first i + 1 players take no more room than all of them. */
  lemma {:induction false} PlayersFit(values: seq<PlayerValue>, i: nat)
    requires TypesOk(values) && i < |values|
    ensures |EncodeFields(PlayersFields(values[..i + 1]))| <= |EncodeFields(PlayersFields(values))|
    decreases |values| - i
  {
    if i + 1 == |values| {
      assert values[..i + 1] == values;
    } else {
      PlayersFieldsPush(values, i + 1);
      PlayersFit(values, i + 1);
    }
  }

  /** ParseContext::ParseMessage: a size, and that many bytes as a message, one level deeper. */
  method ParseMessage(player: Player, s: seq<Byte>, q: nat, end: nat, depth: nat, ghost x: LoginValue)
    returns (next: Option<nat>)
    requires q <= end <= |s| && player.Value() == NO_PLAYER
    modifies player
    ensures Continued(PlayerBody(x, s[q..end], depth), x.(players := x.players + [player.Value()]), s, q, end, depth,
                      next)
  {
    hide Parse, PlayerBody, Size, ReadBytes;
    var size := ReadSize(s, q, end);
    NoPlayer(x, s, q, end, depth, size);
    if size.None? { return None; }
    var (n, k) := size.value;
    if end - q - k < n || depth == 0 { return None; }
    var ok := player.InternalParse(s, q + k, q + k + n, depth - 1);
    PlayerParsed(x, s, q, end, depth, n, k, if ok then Some(player.Value()) else None);
    return if ok then Some(q + k + n) else None;
  }

  /** What is left of the parse when a player's size comes next. */
  function PlayerBody(x: LoginValue, s: seq<Byte>, depth: nat): Option<LoginValue> {
    var f := AsDelimited(2, ReadBytes(s));
    match Next(LoginAt(depth), x, f)
    case None => None
    case Some(y) => Parse(LoginAt(depth), y, s[f.value.1..], depth)
  }

  /** A parse whose outcome is `whole` has failed, or goes on from `next` with the message being y. */
  ghost predicate Continued(whole: Option<LoginValue>, y: LoginValue, s: seq<Byte>, q: nat, end: nat, depth: nat,
                            next: Option<nat>)
    requires q <= end <= |s|
  {
    match next
    case None => whole == None
    case Some(r) => q < r <= end && whole == Parse(LoginAt(depth), y, s[r..end], depth)
  }

  lemma PlayersStep(x: LoginValue, s: seq<Byte>, q: nat, end: nat, depth: nat, k: nat)
    requires q < end <= |s| && Tag(s[q..end]) == Some((18, k)) && q + k <= end
    ensures Parse(LoginAt(depth), x, s[q..end], depth) == PlayerBody(x, s[q + k..end], depth)
  {
    hide Parse, ReadBytes, ReadBody, Tag, ApplyLogin;
    var f := AsDelimited(2, ReadBytes(s[q + k..end]));
    DelimitedRead(s[q + k..end], 2, depth);
    FieldStep(LoginAt(depth), x, s, q, end, depth, 18, k, f);
    if f.Some? { DropAgain(s, q + k, end, f.value.1); }
  }

  lemma SuccessStep(x: LoginValue, s: seq<Byte>, q: nat, end: nat, depth: nat, k: nat, v: Option<(nat, nat)>)
    requires q < end <= |s| && Tag(s[q..end]) == Some((8, k)) && q + k <= end && v == Varint64(s[q + k..end])
    ensures v.None? ==> Stepped(LoginAt(depth), x, x, s, q, end, depth, None)
    ensures v.Some? ==> Stepped(LoginAt(depth), x, x.(success := v.value.0 != 0), s, q, end, depth,
                                Some(q + k + v.value.1))
  {
    VarintRead(s[q + k..end], 1, depth);
    FieldStep(LoginAt(depth), x, s, q, end, depth, 8, k, AsVarint(1, v));
  }

  lemma LoginUnusual(s: seq<Byte>, t: nat, depth: nat)
    requires t != 8 && t != 18
    ensures var r := ReadBody(s, t / 8, t % 8, depth); r.Some? ==> !LoginKnows(r.value.0)
  {
  }

  /** ExpectTag<18>: that byte is a whole tag. */
  lemma NextPlayer(x: LoginValue, s: seq<Byte>, q: nat, end: nat, depth: nat)
    requires q < end <= |s| && s[q] == 18
    ensures Parse(LoginAt(depth), x, s[q..end], depth) == PlayerBody(x, s[q + 1..end], depth)
  {
    assert s[q..end][0] == 18;
    assert Length(s[q..end], 5) == 1;
    assert s[q..end][..1] == [18];
    assert Payload([18]) == 18 by { assert [18][1..] == []; }
    PlayersStep(x, s, q, end, depth, 1);
  }

  lemma BytesAt(s: seq<Byte>, q: nat, end: nat, size: Option<(nat, nat)>)
    requires q <= end <= |s| && size == Size(s[q..end])
    ensures size.None? || end - q - size.value.1 < size.value.0 ==> ReadBytes(s[q..end]) == None
    ensures size.Some? && size.value.0 <= end - q - size.value.1 ==>
              var (n, k) := size.value;
              ReadBytes(s[q..end]) == Some((s[q + k..q + k + n], k + n))
  {
    if size.Some? && size.value.0 <= end - q - size.value.1 {
      SliceAgain(s, q, end, size.value.1, size.value.0);
    }
  }

  lemma PlayerIn(x: LoginValue, data: seq<Byte>, n: nat, depth: nat)
    ensures Next(LoginAt(depth), x, AsDelimited(2, Some((data, n)))) ==
            if depth == 0 then None else
            match Parse(ApplyPlayer, NO_PLAYER, data, depth - 1) {
              case None => None
              case Some(p) => Some(x.(players := x.players + [p]))
            }
  {
  }

  lemma NoPlayer(x: LoginValue, s: seq<Byte>, q: nat, end: nat, depth: nat, size: Option<(nat, nat)>)
    requires q <= end <= |s| && size == Size(s[q..end])
    ensures size.None? || end - q - size.value.1 < size.value.0 || depth == 0 ==>
            PlayerBody(x, s[q..end], depth) == None
  {
    BytesAt(s, q, end, size);
    if size.Some? && size.value.0 <= end - q - size.value.1 {
      PlayerIn(x, s[q + size.value.1..q + size.value.1 + size.value.0], size.value.1 + size.value.0, depth);
    }
  }

  /** A player of n bytes behind a size of k bytes, parsed or not. */
  lemma PlayerParsed(x: LoginValue, s: seq<Byte>, q: nat, end: nat, depth: nat, n: nat, k: nat, p: Option<PlayerValue>)
    requires q <= end <= |s| && Size(s[q..end]) == Some((n, k)) && n <= end - q - k && 0 < depth
    requires p == Parse(ApplyPlayer, NO_PLAYER, s[q + k..q + k + n], depth - 1)
    ensures p.None? ==> PlayerBody(x, s[q..end], depth) == None
    ensures p.Some? ==>
              PlayerBody(x, s[q..end], depth)
                == Parse(LoginAt(depth), x.(players := x.players + [p.value]), s[q + k + n..end], depth)
  {
    hide Parse, ReadBytes, Size;
    BytesAt(s, q, end, Some((n, k)));
    PlayerIn(x, s[q + k..q + k + n], k + n, depth);
    DropAgain(s, q, end, k + n);
  }
}
