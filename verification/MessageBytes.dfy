/**
 The messages as bytes, and what a parser makes of any sequence of fields: tags and sizes written out, and for every
 field of a message the rule by which it gets its value.
 */
module MessageBytes {
  import opened Common
  import opened Varint
  import opened Wire
  import opened MessageValues

  // ----- writing -----

  /** The examples of the Encoding guide: field 1 is 150, field 2 is "testing". */
  lemma GuideFields()
    ensures EncodeField(VarintField(1, 150)) == [0x08, 0x96, 0x01]
    ensures EncodeField(Delimited(2, [0x74, 0x65, 0x73, 0x74, 0x69, 0x6E, 0x67]))
            == [0x12, 0x07, 0x74, 0x65, 0x73, 0x74, 0x69, 0x6E, 0x67]
  {
    GuideVarints();
  }

  /** A number under the one-byte tag, and nothing for 0. */
  function NumberBytes(tag: Byte, v: nat): seq<Byte> {
    if v == 0 then [] else [tag] + Encode(v)
  }

  /** Data behind its tag and its size. */
  function DataBytes(tag: Byte, data: seq<Byte>): seq<Byte> {
    [tag] + Encode(|data|) + data
  }

  function TextBytes(tag: Byte, data: seq<Byte>): seq<Byte> {
    if data == [] then [] else DataBytes(tag, data)
  }

  function ListBytes(tag: Byte, items: seq<seq<Byte>>): seq<Byte> {
    if items == [] then [] else DataBytes(tag, items[0]) + ListBytes(tag, items[1..])
  }

  lemma OneField(f: Field)
    ensures EncodeFields([f]) == EncodeField(f)
  {
    assert [f][1..] == [];
  }

  lemma IdIs(id: nat)
    ensures EncodeFields(IdFields(id)) == NumberBytes(0x08, id)
  {
    OneField(VarintField(1, id));
  }

  lemma TypeIs(t: int)
    requires IsInt32(t)
    ensures EncodeFields(TypeFields(t)) == NumberBytes(0x18, SignExtend(t))
  {
    EnumRoundTrip(t);
    OneField(VarintField(3, SignExtend(t)));
  }

  lemma FlagIs(success: bool)
    ensures EncodeFields(SuccessFields(success)) == if success then [0x08, 0x01] else []
  {
    OneField(VarintField(1, 1));
  }

  lemma DataIs(num: nat, data: seq<Byte>)
    requires 0 < num < 16
    ensures EncodeField(Delimited(num, data)) == DataBytes(num * 8 + 2, data)
  {
    Associate([num * 8 + 2], Encode(|data|), data);
  }

  /** A player: its number under 0x08, its name under 0x12, its type under 0x18, each only if it is not the default,
      and then the unknown fields. */
  lemma PlayerBytes(p: PlayerValue)
    requires IsInt32(p.playerType)
    ensures EncodePlayer(p) == NumberBytes(0x08, p.id) + TextBytes(0x12, p.name)
                               + NumberBytes(0x18, SignExtend(p.playerType)) + EncodeFields(p.unknown)
  {
    hide EncodeFields, NumberBytes, TextBytes, IdFields, StringFields, TypeFields;
    IdIs(p.id);
    TextIs(p.name);
    TypeIs(p.playerType);
    EncodeConcat(IdFields(p.id), StringFields(p.name));
    EncodeConcat(IdFields(p.id) + StringFields(p.name), TypeFields(p.playerType));
    EncodeConcat(IdFields(p.id) + StringFields(p.name) + TypeFields(p.playerType), p.unknown);
  }

  lemma TextIs(data: seq<Byte>)
    ensures EncodeFields(StringFields(data)) == TextBytes(0x12, data)
  {
    DataIs(2, data);
    OneField(Delimited(2, data));
  }

  function PlayersBytes(players: seq<PlayerValue>): seq<seq<Byte>>
    requires TypesOk(players)
  {
    seq(|players|, i requires 0 <= i < |players| => EncodePlayer(players[i]))
  }

  lemma {:induction false} ListIs(players: seq<PlayerValue>)
    requires TypesOk(players)
    ensures EncodeFields(PlayersFields(players)) == ListBytes(0x12, PlayersBytes(players))
    decreases |players|
  {
    if players != [] {
      ListIs(players[1..]);
      DataIs(2, EncodePlayer(players[0]));
      assert PlayersFields(players)[1..] == PlayersFields(players[1..]);
      assert PlayersBytes(players)[1..] == PlayersBytes(players[1..]);
    }
  }

  /** A login: the flag under 0x08 if it is set, every player under 0x12, and then the unknown fields. */
  lemma LoginBytes(x: LoginValue)
    requires TypesOk(x.players)
    ensures EncodeLogin(x) == (if x.success then [0x08, 0x01] else []) + ListBytes(0x12, PlayersBytes(x.players))
                              + EncodeFields(x.unknown)
  {
    hide EncodeFields, ListBytes, SuccessFields, PlayersFields, PlayersBytes;
    FlagIs(x.success);
    ListIs(x.players);
    EncodeConcat(SuccessFields(x.success), PlayersFields(x.players));
    EncodeConcat(SuccessFields(x.success) + PlayersFields(x.players), x.unknown);
  }

  /** A chat line: the player's number under 0x08, the text under 0x12, and then the unknown fields. */
  lemma ChatBytes(x: ChatValue)
    ensures EncodeChat(x) == NumberBytes(0x08, x.playerId) + TextBytes(0x12, x.msg) + EncodeFields(x.unknown)
  {
    hide EncodeFields, NumberBytes, TextBytes, IdFields, StringFields;
    IdIs(x.playerId);
    TextIs(x.msg);
    EncodeConcat(IdFields(x.playerId), StringFields(x.msg));
    EncodeConcat(IdFields(x.playerId) + StringFields(x.msg), x.unknown);
  }

  // ----- parsing -----

  /** The last one wins: the value of the last varint field of that number. */
  function LastNumber(fs: seq<Field>, num: nat, otherwise: nat): nat {
    if fs == [] then otherwise
    else
      var f := fs[|fs| - 1];
      if f.VarintField? && f.num == num then f.value else LastNumber(fs[..|fs| - 1], num, otherwise)
  }

  function LastData(fs: seq<Field>, num: nat, otherwise: seq<Byte>): seq<Byte> {
    if fs == [] then otherwise
    else
      var f := fs[|fs| - 1];
      if f.Delimited? && f.num == num then f.data else LastData(fs[..|fs| - 1], num, otherwise)
  }

  /** Whether a message knows a field: by number and wire type together. */
  predicate Known(f: Field, numbers: set<nat>, data: set<nat>) {
    (f.VarintField? && f.num in numbers) || (f.Delimited? && f.num in data)
  }

  /** All fields that are not known, in their order. */
  function Others(fs: seq<Field>, numbers: set<nat>, data: set<nat>): seq<Field> {
    if fs == [] then []
    else
      var f, before := fs[|fs| - 1], Others(fs[..|fs| - 1], numbers, data);
      if Known(f, numbers, data) then before else before + [f]
  }

  /** All data under that number is text. */
  predicate TextsValid(fs: seq<Field>, num: nat) {
    forall i :: 0 <= i < |fs| && fs[i].Delimited? && fs[i].num == num ==> Utf8(fs[i].data)
  }

  lemma FoldLast<T>(apply: (T, Field) -> Option<T>, x: T, fs: seq<Field>)
    requires fs != []
    ensures Fold(apply, x, fs) ==
            match Fold(apply, x, fs[..|fs| - 1]) { case None => None case Some(y) => apply(y, fs[|fs| - 1]) }
  {
    var front, last := fs[..|fs| - 1], fs[|fs| - 1];
    assert front + [last] == fs;
    FoldConcat(apply, x, front, [last]);
    match Fold(apply, x, front)
    case None =>
    case Some(y) => FoldOne(apply, y, last);
  }

  lemma TextsSplit(fs: seq<Field>, num: nat)
    requires fs != []
    ensures var f := fs[|fs| - 1];
            TextsValid(fs, num) <==> TextsValid(fs[..|fs| - 1], num) && (f.Delimited? && f.num == num ==> Utf8(f.data))
  {
  }

  /** The last type wins, read as a signed 32-bit number. */
  function PlayerTypeFrom(x: PlayerValue, fs: seq<Field>): int {
    if exists i :: 0 <= i < |fs| && fs[i].VarintField? && fs[i].num == 3 then ToInt32(LastNumber(fs, 3, 0))
    else x.playerType
  }

  /** A player parsed from any fields: refused exactly if some name is no text; otherwise the last number, name and
      type win, and everything else is kept in order. */
  lemma {:induction false} PlayerFrom(x: PlayerValue, fs: seq<Field>)
    ensures Fold(ApplyPlayer, x, fs) ==
            if !TextsValid(fs, 2) then None
            else Some(PlayerValue(LastNumber(fs, 1, x.id), LastData(fs, 2, x.name),
                                  PlayerTypeFrom(x, fs), x.unknown + Others(fs, {1, 3}, {2})))
    decreases |fs|
  {
    if fs == [] {
      assert x.unknown + [] == x.unknown;
    } else {
      PlayerFrom(x, fs[..|fs| - 1]);
      FoldLast(ApplyPlayer, x, fs);
      TextsSplit(fs, 2);
      Associate(x.unknown, Others(fs[..|fs| - 1], {1, 3}, {2}), [fs[|fs| - 1]]);
    }
  }

  /** The players a login holds after some fields: one for each piece of data under 2, in order, read on its own one
      level down; nothing if one of them is refused. */
  function PlayersFrom(fs: seq<Field>, depth: nat): Option<seq<PlayerValue>> {
    if fs == [] then Some([])
    else
      var f, before := fs[|fs| - 1], PlayersFrom(fs[..|fs| - 1], depth);
      if before.None? || !(f.Delimited? && f.num == 2) then before
      else
        match ParsePlayer(f.data, depth)
        case None => None
        case Some(p) => Some(before.value + [p])
  }

  /** A login parsed from any fields: the last flag wins, players are appended, everything else is kept in order. */
  lemma {:induction false} LoginFrom(x: LoginValue, fs: seq<Field>, depth: nat)
    ensures Fold(LoginAt(depth), x, fs) ==
            match PlayersFrom(fs, depth) {
              case None => None
              case Some(players) =>
                Some(LoginValue(LastNumber(fs, 1, if x.success then 1 else 0) != 0, x.players + players,
                                x.unknown + Others(fs, {1}, {2})))
            }
    decreases |fs|
  {
    if fs == [] {
      assert x.players + [] == x.players && x.unknown + [] == x.unknown;
    } else {
      var front, last := fs[..|fs| - 1], fs[|fs| - 1];
      LoginFrom(x, front, depth);
      FoldLast(LoginAt(depth), x, fs);
      Associate(x.unknown, Others(front, {1}, {2}), [last]);
      match PlayersFrom(front, depth)
      case None =>
      case Some(players) =>
        if last.Delimited? && last.num == 2 && ParsePlayer(last.data, depth).Some? {
          Associate(x.players, players, [ParsePlayer(last.data, depth).value]);
        }
    }
  }

  /** A chat line parsed from any fields: refused exactly if some text is no text; otherwise the last number and text
      win, and everything else is kept in order. */
  lemma {:induction false} ChatFrom(x: ChatValue, fs: seq<Field>)
    ensures Fold(ApplyChat, x, fs) ==
            if !TextsValid(fs, 2) then None
            else Some(ChatValue(LastNumber(fs, 1, x.playerId), LastData(fs, 2, x.msg),
                                x.unknown + Others(fs, {1}, {2})))
    decreases |fs|
  {
    if fs == [] {
      assert x.unknown + [] == x.unknown;
    } else {
      ChatFrom(x, fs[..|fs| - 1]);
      FoldLast(ApplyChat, x, fs);
      TextsSplit(fs, 2);
      Associate(x.unknown, Others(fs[..|fs| - 1], {1}, {2}), [fs[|fs| - 1]]);
    }
  }
}
