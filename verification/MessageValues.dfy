/**
 What the messages mean: a message is a fold over the fields of its encoding, each field replacing,
 adding to, or being kept beside what is there. Merging, copying and the round trip follow from that.
 */
module MessageValues {
  import opened Common
  import opened Varint
  import opened Wire

  // ----- strings -----

  predicate InRange(b: int, lo: int, hi: int) {
    lo <= b <= hi
  }

  predicate Tail(s: seq<Byte>, from: nat, n: nat) {
    n <= |s| && forall i :: from <= i < n ==> InRange(s[i], 0x80, 0xBF)
  }

  /** How many bytes the first character takes, by the syntax in section 4 of RFC 3629; 0 if there is no character. */
  function CharLength(s: seq<Byte>): (n: nat)
    ensures n <= |s|
  {
    if s == [] then 0
    else if s[0] < 0x80 then 1
    else if InRange(s[0], 0xC2, 0xDF) && Tail(s, 1, 2) then 2
    else if Tail(s, 2, 3) && (|| (s[0] == 0xE0 && InRange(s[1], 0xA0, 0xBF))
                              || (InRange(s[0], 0xE1, 0xEC) && InRange(s[1], 0x80, 0xBF))
                              || (s[0] == 0xED && InRange(s[1], 0x80, 0x9F))
                              || (InRange(s[0], 0xEE, 0xEF) && InRange(s[1], 0x80, 0xBF))) then 3
    else if Tail(s, 2, 4) && (|| (s[0] == 0xF0 && InRange(s[1], 0x90, 0xBF))
                              || (InRange(s[0], 0xF1, 0xF3) && InRange(s[1], 0x80, 0xBF))
                              || (s[0] == 0xF4 && InRange(s[1], 0x80, 0x8F))) then 4
    else 0
  }

  /** IsStructurallyValidUTF8 */
  predicate Utf8(s: seq<Byte>)
    decreases |s|
  {
    s == [] || (0 < CharLength(s) && Utf8(s[CharLength(s)..]))
  }

  // ----- folding fields into a message -----

  /** Apply each field in turn; one that is refused fails the whole. */
  function Fold<T>(apply: (T, Field) -> Option<T>, x: T, fs: seq<Field>): Option<T>
    decreases |fs|
  {
    if fs == [] then Some(x) else
    match apply(x, fs[0])
    case None => None
    case Some(y) => Fold(apply, y, fs[1..])
  }

  /** A parser that takes one tag at a time, starting from message x. */
  function Parse<T>(apply: (T, Field) -> Option<T>, x: T, s: seq<Byte>, depth: nat): Option<T> {
    match Decode(s, depth)
    case None => None
    case Some(fs) => Fold(apply, x, fs)
  }

  lemma {:induction false} FoldConcat<T>(apply: (T, Field) -> Option<T>, x: T, fs: seq<Field>, gs: seq<Field>)
    ensures Fold(apply, x, fs + gs) ==
            match Fold(apply, x, fs) { case None => None case Some(y) => Fold(apply, y, gs) }
    decreases |fs|
  {
    if fs == [] {
      assert fs + gs == gs;
    } else {
      assert (fs + gs)[1..] == fs[1..] + gs;
      match apply(x, fs[0])
      case None =>
      case Some(y) => FoldConcat(apply, y, fs[1..], gs);
    }
  }

  /** One field accepted: go on with the new message behind it. */
  lemma ParseStep<T>(apply: (T, Field) -> Option<T>, x: T, s: seq<Byte>, depth: nat)
    requires s != [] && ReadField(s, depth).Some?
    ensures var (f, n) := ReadField(s, depth).value;
            Parse(apply, x, s, depth) ==
            match apply(x, f) { case None => None case Some(y) => Parse(apply, y, s[n..], depth) }
  {
    var (f, n) := ReadField(s, depth).value;
    match Decode(s[n..], depth)
    case None =>
    case Some(fs) => assert ([f] + fs)[1..] == fs;
  }

  lemma ParseStuck<T>(apply: (T, Field) -> Option<T>, x: T, s: seq<Byte>, depth: nat)
    requires s != [] && ReadField(s, depth).None?
    ensures Parse(apply, x, s, depth) == None
  {
  }

  /** Parsing encoded fields is folding them. */
  lemma ParseEncoded<T>(apply: (T, Field) -> Option<T>, x: T, fs: seq<Field>, depth: nat)
    requires AllWellFormed(fs, depth)
    ensures Parse(apply, x, EncodeFields(fs), depth) == Fold(apply, x, fs)
  {
    DecodeEncode(fs, depth);
  }

  // ----- enums and booleans -----

  predicate IsInt32(t: int) {
    -0x8000_0000 <= t < 0x8000_0000
  }

  /** A 64-bit value cast to a 32-bit enum. */
  function ToInt32(v: nat): int {
    var w := v % TWO_TO_32;
    if w < 0x8000_0000 then w else w - TWO_TO_32
  }

  /** An enum written as a varint: negative values take all 64 bits. */
  function SignExtend(t: int): nat
    requires IsInt32(t)
  {
    if t < 0 then TWO_TO_64 + t else t
  }

  lemma EnumRoundTrip(t: int)
    requires IsInt32(t)
    ensures SignExtend(t) < TWO_TO_64 && ToInt32(SignExtend(t)) == t
    ensures t != 0 ==> SignExtend(t) != 0
  {
    if t < 0 {
      assert SignExtend(t) == TWO_TO_32 * (TWO_TO_32 - 1) + (TWO_TO_32 + t);
    }
  }

  /** The cast keeps the low 32 bits, read as a signed number. */
  lemma ToInt32Range(v: nat)
    ensures IsInt32(ToInt32(v)) && (v - ToInt32(v)) % TWO_TO_32 == 0
  {
  }

  /** The value written is the enum's two's complement in 64 bits, so a negative one takes ten bytes. */
  lemma NegativeTakesTen(t: int)
    requires IsInt32(t)
    ensures SignExtend(t) < TWO_TO_64 && (SignExtend(t) - t) % TWO_TO_64 == 0
    ensures t < 0 <==> |Encode(SignExtend(t))| == 10
  {
    Pow128Values();
    if t < 0 { EncodeLong(SignExtend(t), 9); EncodeShort(SignExtend(t), 10); } else { EncodeShort(t, 5); }
  }

  // ----- Player -----

  datatype PlayerValue = PlayerValue(id: nat, name: seq<Byte>, playerType: int, unknown: seq<Field>)

  const NO_PLAYER := PlayerValue(0, [], 0, [])

  /** The fields Player knows by number and wire type. */
  predicate PlayerKnows(f: Field) {
    (f.VarintField? && (f.num == 1 || f.num == 3)) || (f.Delimited? && f.num == 2)
  }

  function ApplyPlayer(p: PlayerValue, f: Field): Option<PlayerValue> {
    if f.VarintField? && f.num == 1 then Some(p.(id := f.value))
    else if f.Delimited? && f.num == 2 then
      if Utf8(f.data) then Some(p.(name := f.data)) else None
    else if f.VarintField? && f.num == 3 then Some(p.(playerType := ToInt32(f.value)))
    else Some(p.(unknown := p.unknown + [f]))
  }

  function IdFields(id: nat): seq<Field> {
    if id != 0 then [VarintField(1, id)] else []
  }

  function StringFields(data: seq<Byte>): seq<Field> {
    if data != [] then [Delimited(2, data)] else []
  }

  function TypeFields(t: int): seq<Field>
    requires IsInt32(t)
  {
    if t != 0 then [VarintField(3, SignExtend(t))] else []
  }

  function PlayerFields(p: PlayerValue): seq<Field>
    requires IsInt32(p.playerType)
  {
    IdFields(p.id) + StringFields(p.name) + TypeFields(p.playerType) + p.unknown
  }

  function EncodePlayer(p: PlayerValue): seq<Byte>
    requires IsInt32(p.playerType)
  {
    EncodeFields(PlayerFields(p))
  }

  ghost predicate NoneKnown(knows: Field -> bool, fs: seq<Field>) {
    forall i :: 0 <= i < |fs| ==> !knows(fs[i])
  }

  /** Fields within their C++ types, and unknown fields that are unknown. */
  ghost predicate PlayerTyped(p: PlayerValue, depth: nat) {
    && p.id < TWO_TO_64 && IsInt32(p.playerType)
    && AllWellFormed(p.unknown, depth) && NoneKnown(PlayerKnows, p.unknown)
  }

  /** And a name with a size that can be read back. */
  ghost predicate PlayerOk(p: PlayerValue, depth: nat) {
    PlayerTyped(p, depth) && |p.name| <= MAX_SIZE
  }

  /** What the size computations of the writer are exact for: lengths of 32 bits. */
  ghost predicate PlayerSized(p: PlayerValue, depth: nat) {
    PlayerTyped(p, depth) && |p.name| < TWO_TO_32
  }

  /** Player::MergeFrom */
  function MergePlayer(x: PlayerValue, y: PlayerValue): PlayerValue {
    PlayerValue(if y.id != 0 then y.id else x.id,
                if y.name != [] then y.name else x.name,
                if y.playerType != 0 then y.playerType else x.playerType,
                x.unknown + y.unknown)
  }

  /** Unknown fields are appended, whatever the message. */
  lemma {:induction false} FoldUnknownPlayer(x: PlayerValue, fs: seq<Field>)
    requires NoneKnown(PlayerKnows, fs)
    ensures Fold(ApplyPlayer, x, fs) == Some(x.(unknown := x.unknown + fs))
    decreases |fs|
  {
    if fs == [] {
      assert x.unknown + fs == x.unknown;
    } else {
      FoldUnknownPlayer(x.(unknown := x.unknown + [fs[0]]), fs[1..]);
      assert x.unknown + [fs[0]] + fs[1..] == x.unknown + fs;
    }
  }

  lemma FoldOne<T>(apply: (T, Field) -> Option<T>, x: T, f: Field)
    ensures Fold(apply, x, [f]) == apply(x, f)
  {
    assert [f][1..] == [];
    match apply(x, f) case None => case Some(y) => assert Fold(apply, y, []) == Some(y);
  }

  /** Folding the fields of y into x is merging, unless y's name is refused. */
  lemma FoldPlayer(x: PlayerValue, y: PlayerValue)
    requires IsInt32(y.playerType) && NoneKnown(PlayerKnows, y.unknown)
    ensures Fold(ApplyPlayer, x, PlayerFields(y)) == if Utf8(y.name) then Some(MergePlayer(x, y)) else None
  {
    var x1 := if y.id != 0 then x.(id := y.id) else x;
    var x2 := if y.name != [] then x1.(name := y.name) else x1;
    var x3 := if y.playerType != 0 then x2.(playerType := y.playerType) else x2;
    var a, b, c := IdFields(y.id), StringFields(y.name), TypeFields(y.playerType);
    EnumRoundTrip(y.playerType);
    FoldOne(ApplyPlayer, x, VarintField(1, y.id));
    FoldOne(ApplyPlayer, x1, Delimited(2, y.name));
    FoldOne(ApplyPlayer, x2, VarintField(3, SignExtend(y.playerType)));
    FoldUnknownPlayer(x3, y.unknown);
    FoldConcat(ApplyPlayer, x, a, b);
    FoldConcat(ApplyPlayer, x, a + b, c);
    FoldConcat(ApplyPlayer, x, a + b + c, y.unknown);
  }

  lemma ConcatFour(a: seq<Field>, b: seq<Field>, c: seq<Field>, d: seq<Field>, depth: nat)
    requires AllWellFormed(a, depth) && AllWellFormed(b, depth) && AllWellFormed(c, depth) && AllWellFormed(d, depth)
    ensures AllWellFormed(a + b + c + d, depth)
  {
    WellFormedConcat(a, b, depth);
    WellFormedConcat(a + b, c, depth);
    WellFormedConcat(a + b + c, d, depth);
  }

  lemma OneWellFormed(f: Field, depth: nat)
    requires WellFormed(f, depth)
    ensures AllWellFormed([f], depth)
  {
    assert [f][1..] == [];
  }

  lemma PlayerFieldsOk(p: PlayerValue, depth: nat)
    requires PlayerOk(p, depth)
    ensures AllWellFormed(PlayerFields(p), depth)
  {
    EnumRoundTrip(p.playerType);
    if p.id != 0 { OneWellFormed(VarintField(1, p.id), depth); }
    if p.name != [] { OneWellFormed(Delimited(2, p.name), depth); }
    if p.playerType != 0 { OneWellFormed(VarintField(3, SignExtend(p.playerType)), depth); }
    ConcatFour(IdFields(p.id), StringFields(p.name), TypeFields(p.playerType), p.unknown, depth);
  }

  /** Valid, and not too large for the reader. */
  predicate TextReadable(text: seq<Byte>) {
    Utf8(text) && |text| <= MAX_SIZE
  }

  /** A string that is too large stops the reader, with or without an id in front of it. */
  lemma LongStringStops(id: nat, data: seq<Byte>, t: seq<Byte>, depth: nat)
    requires id < TWO_TO_64 && MAX_SIZE < |data|
    ensures Decode(EncodeFields(IdFields(id) + StringFields(data)) + t, depth) == None
  {
    var field := Delimited(2, data);
    LongDataRefused(2, data, t, depth);
    EncodeConcat(IdFields(id), StringFields(data));
    assert [field][1..] == [] && EncodeFields([field]) == EncodeField(field);
    if id != 0 {
      var first := VarintField(1, id);
      assert [first][1..] == [] && EncodeFields([first]) == EncodeField(first);
      Associate(EncodeField(first), EncodeField(field), t);
      DecodeBehind(first, EncodeField(field) + t, depth);
    }
  }

  lemma LongNameRefused(x: PlayerValue, y: PlayerValue, depth: nat)
    requires PlayerTyped(y, depth) && MAX_SIZE < |y.name|
    ensures Parse(ApplyPlayer, x, EncodePlayer(y), depth) == None
  {
    var head := IdFields(y.id) + StringFields(y.name);
    EncodeConcat(head, TypeFields(y.playerType));
    EncodeConcat(head + TypeFields(y.playerType), y.unknown);
    Associate(EncodeFields(head), EncodeFields(TypeFields(y.playerType)), EncodeFields(y.unknown));
    LongStringStops(y.id, y.name, EncodeFields(TypeFields(y.playerType)) + EncodeFields(y.unknown), depth);
  }

  /** Parsing what y serialises to into x merges y into x, if y's name is valid UTF-8 and not too large; otherwise it
      fails. */
  lemma PlayerParseMerges(x: PlayerValue, y: PlayerValue, depth: nat)
    requires PlayerTyped(y, depth)
    ensures Parse(ApplyPlayer, x, EncodePlayer(y), depth)
            == if TextReadable(y.name) then Some(MergePlayer(x, y)) else None
  {
    if |y.name| <= MAX_SIZE {
      PlayerFieldsOk(y, depth);
      ParseEncoded(ApplyPlayer, x, PlayerFields(y), depth);
      FoldPlayer(x, y);
    } else {
      LongNameRefused(x, y, depth);
    }
  }

  lemma MergeIntoNothing(p: PlayerValue)
    ensures MergePlayer(NO_PLAYER, p) == p
  {
    assert [] + p.unknown == p.unknown;
  }

  // ----- whatever was parsed can be written and parsed again -----

  /** A field that came from the wire keeps a message in order. */
  lemma ApplyPlayerKeepsOk(p: PlayerValue, f: Field, depth: nat)
    requires PlayerOk(p, depth) && Utf8(p.name) && WellFormed(f, depth)
    ensures var r := ApplyPlayer(p, f); r.Some? ==> PlayerOk(r.value, depth) && Utf8(r.value.name)
  {
    if f.VarintField? { ToInt32Range(f.value); }
    if !PlayerKnows(f) {
      OneWellFormed(f, depth);
      WellFormedConcat(p.unknown, [f], depth);
    }
  }

  lemma {:induction false} FoldPlayerKeepsOk(p: PlayerValue, fs: seq<Field>, depth: nat)
    requires PlayerOk(p, depth) && Utf8(p.name) && AllWellFormed(fs, depth)
    ensures var r := Fold(ApplyPlayer, p, fs); r.Some? ==> PlayerOk(r.value, depth) && Utf8(r.value.name)
    decreases |fs|
  {
    if fs != [] {
      ApplyPlayerKeepsOk(p, fs[0], depth);
      match ApplyPlayer(p, fs[0])
      case None =>
      case Some(q) => FoldPlayerKeepsOk(q, fs[1..], depth);
    }
  }

  /** Every byte string that parses gives a message that can be written and parsed back to itself. */
  lemma ParsedPlayerRoundTrips(s: seq<Byte>, depth: nat)
    ensures match Parse(ApplyPlayer, NO_PLAYER, s, depth) {
              case None => true
              case Some(p) => PlayerOk(p, depth) && Utf8(p.name)
                              && Parse(ApplyPlayer, NO_PLAYER, EncodePlayer(p), depth) == Some(p)
            }
  {
    DecodeIsWellFormed(s, depth);
    match Decode(s, depth)
    case None =>
    case Some(fs) =>
      FoldPlayerKeepsOk(NO_PLAYER, fs, depth);
      match Fold(ApplyPlayer, NO_PLAYER, fs)
      case None =>
      case Some(p) =>
        PlayerParseMerges(NO_PLAYER, p, depth);
        MergeIntoNothing(p);
  }

  // ----- S_LOGIN -----

  datatype LoginValue = LoginValue(success: bool, players: seq<PlayerValue>, unknown: seq<Field>)

  const NO_LOGIN := LoginValue(false, [], [])

  predicate LoginKnows(f: Field) {
    (f.VarintField? && f.num == 1) || (f.Delimited? && f.num == 2)
  }

  /** ParseMessage: one level deeper, and only if a level is left. */
  function ParsePlayer(s: seq<Byte>, depth: nat): Option<PlayerValue> {
    if depth == 0 then None else Parse(ApplyPlayer, NO_PLAYER, s, depth - 1)
  }

  function ApplyLogin(x: LoginValue, f: Field, depth: nat): Option<LoginValue> {
    if f.VarintField? && f.num == 1 then Some(x.(success := f.value != 0))
    else if f.Delimited? && f.num == 2 then
      match ParsePlayer(f.data, depth)
      case None => None
      case Some(p) => Some(x.(players := x.players + [p]))
    else Some(x.(unknown := x.unknown + [f]))
  }

  function LoginAt(depth: nat): (LoginValue, Field) -> Option<LoginValue> {
    (x, f) => ApplyLogin(x, f, depth)
  }

  function SuccessFields(success: bool): seq<Field> {
    if success then [VarintField(1, 1)] else []
  }

  ghost predicate TypesOk(players: seq<PlayerValue>) {
    forall i :: 0 <= i < |players| ==> IsInt32(players[i].playerType)
  }

  function PlayersFields(players: seq<PlayerValue>): seq<Field>
    requires TypesOk(players)
  {
    if players == [] then [] else [Delimited(2, EncodePlayer(players[0]))] + PlayersFields(players[1..])
  }

  /** Everything within its type, and players one level down. */
  ghost predicate LoginTyped(x: LoginValue, depth: nat) {
    && AllWellFormed(x.unknown, depth) && NoneKnown(LoginKnows, x.unknown)
    && 0 < depth && forall i :: 0 <= i < |x.players| ==> PlayerTyped(x.players[i], depth - 1)
  }

  /** And every player with a size that can be read back. */
  ghost predicate LoginOk(x: LoginValue, depth: nat) {
    && AllWellFormed(x.unknown, depth) && NoneKnown(LoginKnows, x.unknown)
    && 0 < depth && forall i :: 0 <= i < |x.players| ==>
      PlayerOk(x.players[i], depth - 1) && |EncodePlayer(x.players[i])| <= MAX_SIZE
  }

  ghost predicate LoginSized(x: LoginValue, depth: nat) {
    && AllWellFormed(x.unknown, depth) && NoneKnown(LoginKnows, x.unknown)
    && 0 < depth && forall i :: 0 <= i < |x.players| ==>
      PlayerSized(x.players[i], depth - 1) && |EncodePlayer(x.players[i])| < TWO_TO_32
  }

  predicate NamesValid(players: seq<PlayerValue>) {
    forall i :: 0 <= i < |players| ==> Utf8(players[i].name)
  }

  function LoginFields(x: LoginValue): seq<Field>
    requires TypesOk(x.players)
  {
    SuccessFields(x.success) + PlayersFields(x.players) + x.unknown
  }

  function EncodeLogin(x: LoginValue): seq<Byte>
    requires TypesOk(x.players)
  {
    EncodeFields(LoginFields(x))
  }

  /** S_LOGIN::MergeFrom */
  function MergeLogin(x: LoginValue, y: LoginValue): LoginValue {
    LoginValue(if y.success then true else x.success, x.players + y.players, x.unknown + y.unknown)
  }

  lemma {:induction false} FoldUnknownLogin(x: LoginValue, fs: seq<Field>, depth: nat)
    requires NoneKnown(LoginKnows, fs)
    ensures Fold(LoginAt(depth), x, fs) == Some(x.(unknown := x.unknown + fs))
    decreases |fs|
  {
    if fs == [] {
      assert x.unknown + fs == x.unknown;
    } else {
      FoldUnknownLogin(x.(unknown := x.unknown + [fs[0]]), fs[1..], depth);
      assert x.unknown + [fs[0]] + fs[1..] == x.unknown + fs;
    }
  }

  lemma {:induction false} FoldPlayers(x: LoginValue, players: seq<PlayerValue>, depth: nat)
    requires TypesOk(players) && 0 < depth && forall i :: 0 <= i < |players| ==> PlayerOk(players[i], depth - 1)
    ensures Fold(LoginAt(depth), x, PlayersFields(players)) ==
            if NamesValid(players) then Some(x.(players := x.players + players)) else None
    decreases |players|
  {
    hide ApplyLogin, EncodePlayer, Utf8, AllWellFormed;
    if players == [] {
      assert x.players + players == x.players;
    } else {
      var p, more := players[0], players[1..];
      NamesSplit(players);
      ApplyOnePlayer(x, p, depth);
      FoldCons(LoginAt(depth), x, Delimited(2, EncodePlayer(p)), PlayersFields(more));
      if Utf8(p.name) {
        FoldPlayers(x.(players := x.players + [p]), more, depth);
        assert x.players + [p] + more == x.players + players;
      }
    }
  }

  lemma FoldCons<T>(apply: (T, Field) -> Option<T>, x: T, f: Field, fs: seq<Field>)
    ensures Fold(apply, x, [f] + fs) == match apply(x, f) { case None => None case Some(y) => Fold(apply, y, fs) }
  {
    assert ([f] + fs)[1..] == fs;
  }

  lemma ApplyOnePlayer(x: LoginValue, p: PlayerValue, depth: nat)
    requires 0 < depth && PlayerOk(p, depth - 1)
    ensures ApplyLogin(x, Delimited(2, EncodePlayer(p)), depth)
            == if Utf8(p.name) then Some(x.(players := x.players + [p])) else None
  {
    PlayerParseMerges(NO_PLAYER, p, depth - 1);
    MergeIntoNothing(p);
  }

  lemma NamesSplit(players: seq<PlayerValue>)
    requires players != []
    ensures NamesValid(players) <==> Utf8(players[0].name) && NamesValid(players[1..])
  {
    assert forall i :: 1 <= i < |players| ==> players[i] == players[1..][i - 1];
  }

  lemma FoldLogin(x: LoginValue, y: LoginValue, depth: nat)
    requires LoginOk(y, depth)
    ensures Fold(LoginAt(depth), x, LoginFields(y)) == if NamesValid(y.players) then Some(MergeLogin(x, y)) else None
  {
    var x1 := if y.success then x.(success := true) else x;
    var a, b := SuccessFields(y.success), PlayersFields(y.players);
    FoldOne(LoginAt(depth), x, VarintField(1, 1));
    FoldPlayers(x1, y.players, depth);
    FoldUnknownLogin(x1.(players := x1.players + y.players), y.unknown, depth);
    FoldConcat(LoginAt(depth), x, a, b);
    FoldConcat(LoginAt(depth), x, a + b, y.unknown);
  }

  ghost predicate PlayersSmall(players: seq<PlayerValue>)
    requires TypesOk(players)
  {
    forall i :: 0 <= i < |players| ==> |EncodePlayer(players[i])| <= MAX_SIZE
  }

  lemma {:induction false} PlayersFieldsOk(players: seq<PlayerValue>, depth: nat)
    requires TypesOk(players) && PlayersSmall(players)
    ensures AllWellFormed(PlayersFields(players), depth)
    decreases |players|
  {
    if players != [] {
      PlayersFieldsOk(players[1..], depth);
      assert PlayersFields(players)[1..] == PlayersFields(players[1..]);
    }
  }

  lemma LoginFieldsOk(x: LoginValue, depth: nat)
    requires LoginOk(x, depth)
    ensures AllWellFormed(LoginFields(x), depth)
  {
    OneWellFormed(VarintField(1, 1), depth);
    PlayersFieldsOk(x.players, depth);
    WellFormedConcat(SuccessFields(x.success), PlayersFields(x.players), depth);
    WellFormedConcat(SuccessFields(x.success) + PlayersFields(x.players), x.unknown, depth);
  }

  lemma MergeLoginIntoNothing(x: LoginValue)
    ensures MergeLogin(NO_LOGIN, x) == x
  {
    assert [] + x.players == x.players && [] + x.unknown == x.unknown;
  }

  lemma NameInside(p: PlayerValue)
    requires IsInt32(p.playerType)
    ensures |p.name| <= |EncodePlayer(p)|
  {
    EncodeConcat(IdFields(p.id), StringFields(p.name));
    EncodeConcat(IdFields(p.id) + StringFields(p.name), TypeFields(p.playerType));
    EncodeConcat(IdFields(p.id) + StringFields(p.name) + TypeFields(p.playerType), p.unknown);
    assert p.name != [] ==> EncodeFields(StringFields(p.name)) == EncodeField(Delimited(2, p.name)) + EncodeFields([]);
  }

  lemma SmallIsOk(x: LoginValue, depth: nat)
    requires LoginTyped(x, depth) && PlayersSmall(x.players)
    ensures LoginOk(x, depth)
  {
    forall i | 0 <= i < |x.players|
      ensures PlayerOk(x.players[i], depth - 1)
    {
      NameInside(x.players[i]);
    }
  }

  lemma {:induction false} PlayersWithin(players: seq<PlayerValue>)
    requires TypesOk(players)
    ensures forall i :: 0 <= i < |players| ==> |EncodePlayer(players[i])| <= |EncodeFields(PlayersFields(players))|
    decreases |players|
  {
    if players != [] {
      PlayersWithin(players[1..]);
      assert PlayersFields(players)[1..] == PlayersFields(players[1..]);
      forall i | 1 <= i < |players|
        ensures |EncodePlayer(players[i])| <= |EncodeFields(PlayersFields(players))|
      {
        assert players[i] == players[1..][i - 1];
      }
    }
  }

  /** Every player of a message is at most as large as the message. */
  lemma SmallMessageIsOk(x: LoginValue, depth: nat)
    requires LoginTyped(x, depth) && TypesOk(x.players) && |EncodeLogin(x)| <= MAX_SIZE
    ensures LoginOk(x, depth) && PlayersSmall(x.players)
  {
    EncodeConcat(SuccessFields(x.success), PlayersFields(x.players));
    EncodeConcat(SuccessFields(x.success) + PlayersFields(x.players), x.unknown);
    PlayersWithin(x.players);
    SmallIsOk(x, depth);
  }

  /** A player that is too large stops the reader, wherever it is in the list. */
  lemma {:induction false} LargePlayerStops(players: seq<PlayerValue>, t: seq<Byte>, depth: nat)
    requires TypesOk(players) && !PlayersSmall(players)
    ensures Decode(EncodeFields(PlayersFields(players)) + t, depth) == None
    decreases |players|
  {
    var data, rest := EncodePlayer(players[0]), PlayersFields(players[1..]);
    assert PlayersFields(players)[1..] == rest;
    Associate(EncodeField(Delimited(2, data)), EncodeFields(rest), t);
    if MAX_SIZE < |data| {
      LongDataRefused(2, data, EncodeFields(rest) + t, depth);
    } else {
      LargePlayerStops(players[1..], t, depth);
      DecodeBehind(Delimited(2, data), EncodeFields(rest) + t, depth);
    }
  }

  lemma LargePlayerRefused(x: LoginValue, t: seq<Byte>, depth: nat)
    requires TypesOk(x.players) && !PlayersSmall(x.players)
    ensures Decode(EncodeLogin(x) + t, depth) == None
  {
    hide EncodeFields, PlayersFields, SuccessFields, PlayersSmall, Decode;
    var a, b, c := EncodeFields(SuccessFields(x.success)), EncodeFields(PlayersFields(x.players)),
      EncodeFields(x.unknown);
    EncodeConcat(SuccessFields(x.success), PlayersFields(x.players));
    EncodeConcat(SuccessFields(x.success) + PlayersFields(x.players), x.unknown);
    assert EncodeLogin(x) == a + b + c;
    Associate(a + b, c, t);
    Associate(a, b, c + t);
    LargePlayerStops(x.players, c + t, depth);
    FlagFirst(x.success, b + (c + t), depth);
  }

  /** The flag in front of something that cannot be decoded. */
  lemma FlagFirst(success: bool, t: seq<Byte>, depth: nat)
    requires Decode(t, depth) == None
    ensures Decode(EncodeFields(SuccessFields(success)) + t, depth) == None
  {
    if success {
      var flag := VarintField(1, 1);
      assert [flag][1..] == [];
      assert EncodeFields([flag]) == EncodeField(flag);
      DecodeBehind(flag, t, depth);
    } else {
      assert EncodeFields([]) + t == t;
    }
  }

  /** All names valid, and no player too large for the reader. */
  ghost predicate Readable(players: seq<PlayerValue>)
    requires TypesOk(players)
  {
    NamesValid(players) && PlayersSmall(players)
  }

  /** Parsing what y serialises to into x merges y into x, if and only if y is readable; otherwise it fails. */
  lemma LoginParseMerges(x: LoginValue, y: LoginValue, depth: nat)
    requires LoginTyped(y, depth)
    ensures TypesOk(y.players)
    ensures Parse(LoginAt(depth), x, EncodeLogin(y), depth)
            == if Readable(y.players) then Some(MergeLogin(x, y)) else None
  {
    if PlayersSmall(y.players) {
      SmallIsOk(y, depth);
      LoginFieldsOk(y, depth);
      ParseEncoded(LoginAt(depth), x, LoginFields(y), depth);
      FoldLogin(x, y, depth);
    } else {
      LargePlayerRefused(y, [], depth);
      assert EncodeLogin(y) + [] == EncodeLogin(y);
    }
  }

  /** Two serialised messages one after the other parse as the merge of the second into the first, if and only if
      both are readable; otherwise the parse fails. */
  lemma LoginConcatMerges(x: LoginValue, y: LoginValue, depth: nat)
    requires LoginTyped(x, depth) && LoginTyped(y, depth)
    ensures TypesOk(x.players) && TypesOk(y.players)
    ensures Parse(LoginAt(depth), NO_LOGIN, EncodeLogin(x) + EncodeLogin(y), depth)
            == if Readable(x.players) && Readable(y.players) then Some(MergeLogin(x, y)) else None
  {
    if !PlayersSmall(x.players) {
      LargePlayerRefused(x, EncodeLogin(y), depth);
    } else {
      SmallIsOk(x, depth);
      LoginFieldsOk(x, depth);
      if PlayersSmall(y.players) {
        SmallIsOk(y, depth);
        SmallLoginsMerge(x, y, depth);
      } else {
        LargePlayerRefused(y, [], depth);
        assert EncodeLogin(y) + [] == EncodeLogin(y);
        DecodeBehindAll(LoginFields(x), EncodeLogin(y), depth);
      }
    }
  }

  lemma SmallLoginsMerge(x: LoginValue, y: LoginValue, depth: nat)
    requires LoginOk(x, depth) && LoginOk(y, depth)
    ensures Parse(LoginAt(depth), NO_LOGIN, EncodeLogin(x) + EncodeLogin(y), depth)
            == if NamesValid(x.players) && NamesValid(y.players) then Some(MergeLogin(x, y)) else None
  {
    hide EncodeFields, LoginFields, Fold, AllWellFormed, NamesValid;
    LoginFieldsOk(x, depth);
    LoginFieldsOk(y, depth);
    WellFormedConcat(LoginFields(x), LoginFields(y), depth);
    EncodeConcat(LoginFields(x), LoginFields(y));
    ParseEncoded(LoginAt(depth), NO_LOGIN, LoginFields(x) + LoginFields(y), depth);
    FoldConcat(LoginAt(depth), NO_LOGIN, LoginFields(x), LoginFields(y));
    FoldLogin(NO_LOGIN, x, depth);
    FoldLogin(x, y, depth);
    MergeLoginIntoNothing(x);
  }

  /** The round trip holds exactly for messages with valid UTF-8 names and no player above the limit on sizes. */
  lemma LoginRoundTripIff(x: LoginValue, depth: nat)
    requires LoginTyped(x, depth)
    ensures TypesOk(x.players)
    ensures Parse(LoginAt(depth), NO_LOGIN, EncodeLogin(x), depth) == Some(x) <==> Readable(x.players)
  {
    LoginParseMerges(NO_LOGIN, x, depth);
    MergeLoginIntoNothing(x);
  }

  lemma ApplyLoginKeepsOk(x: LoginValue, f: Field, depth: nat)
    requires LoginInOrder(x, depth) && WellFormed(f, depth)
    ensures var r := ApplyLogin(x, f, depth); r.Some? ==> LoginInOrder(r.value, depth)
  {
    if f.Delimited? && f.num == 2 {
      if depth > 0 { ParsedPlayerRoundTrips(f.data, depth - 1); }
    } else if !LoginKnows(f) {
      OneWellFormed(f, depth);
      WellFormedConcat(x.unknown, [f], depth);
    }
  }

  /** What parsing keeps: everything a message needs to be written and read back, apart from the size of its players. */
  ghost predicate LoginInOrder(x: LoginValue, depth: nat) {
    && AllWellFormed(x.unknown, depth) && NoneKnown(LoginKnows, x.unknown)
    && 0 < depth && forall i :: 0 <= i < |x.players| ==> PlayerOk(x.players[i], depth - 1) && Utf8(x.players[i].name)
  }

  lemma {:induction false} FoldLoginKeepsOk(x: LoginValue, fs: seq<Field>, depth: nat)
    requires LoginInOrder(x, depth) && AllWellFormed(fs, depth)
    ensures var r := Fold(LoginAt(depth), x, fs); r.Some? ==> LoginInOrder(r.value, depth)
    decreases |fs|
  {
    if fs != [] {
      ApplyLoginKeepsOk(x, fs[0], depth);
      match ApplyLogin(x, fs[0], depth)
      case None =>
      case Some(y) => FoldLoginKeepsOk(y, fs[1..], depth);
    }
  }

  /** Every byte string that parses gives a message that parses back to itself when written, unless writing
      made a player too large for the reader. */
  lemma ParsedLoginRoundTrips(s: seq<Byte>, depth: nat)
    requires 0 < depth
    ensures match Parse(LoginAt(depth), NO_LOGIN, s, depth) {
              case None => true
              case Some(x) => LoginInOrder(x, depth) && TypesOk(x.players)
                              && (Parse(LoginAt(depth), NO_LOGIN, EncodeLogin(x), depth) == Some(x) <==>
                                  PlayersSmall(x.players))
            }
  {
    DecodeIsWellFormed(s, depth);
    match Decode(s, depth)
    case None =>
    case Some(fs) =>
      FoldLoginKeepsOk(NO_LOGIN, fs, depth);
      match Fold(LoginAt(depth), NO_LOGIN, fs)
      case None =>
      case Some(x) => LoginRoundTripIff(x, depth);
  }

  // ----- S_CHAT -----

  datatype ChatValue = ChatValue(playerId: nat, msg: seq<Byte>, unknown: seq<Field>)

  const NO_CHAT := ChatValue(0, [], [])

  predicate ChatKnows(f: Field) {
    (f.VarintField? && f.num == 1) || (f.Delimited? && f.num == 2)
  }

  function ApplyChat(x: ChatValue, f: Field): Option<ChatValue> {
    if f.VarintField? && f.num == 1 then Some(x.(playerId := f.value))
    else if f.Delimited? && f.num == 2 then
      if Utf8(f.data) then Some(x.(msg := f.data)) else None
    else Some(x.(unknown := x.unknown + [f]))
  }

  function ChatFields(x: ChatValue): seq<Field> {
    IdFields(x.playerId) + StringFields(x.msg) + x.unknown
  }

  function EncodeChat(x: ChatValue): seq<Byte> {
    EncodeFields(ChatFields(x))
  }

  ghost predicate ChatTyped(x: ChatValue, depth: nat) {
    && x.playerId < TWO_TO_64
    && AllWellFormed(x.unknown, depth) && NoneKnown(ChatKnows, x.unknown)
  }

  ghost predicate ChatOk(x: ChatValue, depth: nat) {
    ChatTyped(x, depth) && |x.msg| <= MAX_SIZE
  }

  ghost predicate ChatSized(x: ChatValue, depth: nat) {
    ChatTyped(x, depth) && |x.msg| < TWO_TO_32
  }

  /** S_CHAT::MergeFrom */
  function MergeChat(x: ChatValue, y: ChatValue): ChatValue {
    ChatValue(if y.playerId != 0 then y.playerId else x.playerId,
              if y.msg != [] then y.msg else x.msg,
              x.unknown + y.unknown)
  }

  lemma {:induction false} FoldUnknownChat(x: ChatValue, fs: seq<Field>)
    requires NoneKnown(ChatKnows, fs)
    ensures Fold(ApplyChat, x, fs) == Some(x.(unknown := x.unknown + fs))
    decreases |fs|
  {
    if fs == [] {
      assert x.unknown + fs == x.unknown;
    } else {
      FoldUnknownChat(x.(unknown := x.unknown + [fs[0]]), fs[1..]);
      assert x.unknown + [fs[0]] + fs[1..] == x.unknown + fs;
    }
  }

  lemma FoldChat(x: ChatValue, y: ChatValue)
    requires NoneKnown(ChatKnows, y.unknown)
    ensures Fold(ApplyChat, x, ChatFields(y)) == if Utf8(y.msg) then Some(MergeChat(x, y)) else None
  {
    var x1 := if y.playerId != 0 then x.(playerId := y.playerId) else x;
    var x2 := if y.msg != [] then x1.(msg := y.msg) else x1;
    FoldOne(ApplyChat, x, VarintField(1, y.playerId));
    FoldOne(ApplyChat, x1, Delimited(2, y.msg));
    FoldUnknownChat(x2, y.unknown);
    FoldConcat(ApplyChat, x, IdFields(y.playerId), StringFields(y.msg));
    FoldConcat(ApplyChat, x, IdFields(y.playerId) + StringFields(y.msg), y.unknown);
  }

  lemma ChatFieldsOk(x: ChatValue, depth: nat)
    requires ChatOk(x, depth)
    ensures AllWellFormed(ChatFields(x), depth)
  {
    if x.playerId != 0 { OneWellFormed(VarintField(1, x.playerId), depth); }
    if x.msg != [] { OneWellFormed(Delimited(2, x.msg), depth); }
    WellFormedConcat(IdFields(x.playerId), StringFields(x.msg), depth);
    WellFormedConcat(IdFields(x.playerId) + StringFields(x.msg), x.unknown, depth);
  }

  lemma ChatConcatMerges(x: ChatValue, y: ChatValue, depth: nat)
    requires ChatTyped(x, depth) && ChatTyped(y, depth)
    ensures Parse(ApplyChat, NO_CHAT, EncodeChat(x) + EncodeChat(y), depth)
            == if TextReadable(x.msg) && TextReadable(y.msg) then Some(MergeChat(x, y)) else None
  {
    if MAX_SIZE < |x.msg| {
      LongTextStops(x, EncodeChat(y), depth);
    } else {
      ChatFieldsOk(x, depth);
      if MAX_SIZE < |y.msg| {
        LongTextStops(y, [], depth);
        assert EncodeChat(y) + [] == EncodeChat(y);
        DecodeBehindAll(ChatFields(x), EncodeChat(y), depth);
      } else {
        SmallChatsMerge(x, y, depth);
      }
    }
  }

  lemma LongTextStops(x: ChatValue, t: seq<Byte>, depth: nat)
    requires ChatTyped(x, depth) && MAX_SIZE < |x.msg|
    ensures Decode(EncodeChat(x) + t, depth) == None
  {
    EncodeConcat(IdFields(x.playerId) + StringFields(x.msg), x.unknown);
    Associate(EncodeFields(IdFields(x.playerId) + StringFields(x.msg)), EncodeFields(x.unknown), t);
    LongStringStops(x.playerId, x.msg, EncodeFields(x.unknown) + t, depth);
  }

  lemma SmallChatsMerge(x: ChatValue, y: ChatValue, depth: nat)
    requires ChatOk(x, depth) && ChatOk(y, depth)
    ensures Parse(ApplyChat, NO_CHAT, EncodeChat(x) + EncodeChat(y), depth)
            == if Utf8(x.msg) && Utf8(y.msg) then Some(MergeChat(x, y)) else None
  {
    ChatFieldsOk(x, depth);
    ChatFieldsOk(y, depth);
    WellFormedConcat(ChatFields(x), ChatFields(y), depth);
    EncodeConcat(ChatFields(x), ChatFields(y));
    ParseEncoded(ApplyChat, NO_CHAT, ChatFields(x) + ChatFields(y), depth);
    FoldConcat(ApplyChat, NO_CHAT, ChatFields(x), ChatFields(y));
    FoldChat(NO_CHAT, x);
    FoldChat(x, y);
    assert [] + x.unknown == x.unknown;
  }

  lemma ChatRoundTripIff(x: ChatValue, depth: nat)
    requires ChatTyped(x, depth)
    ensures Parse(ApplyChat, NO_CHAT, EncodeChat(x), depth) == Some(x) <==> TextReadable(x.msg)
  {
    if |x.msg| <= MAX_SIZE {
      ChatFieldsOk(x, depth);
      ParseEncoded(ApplyChat, NO_CHAT, ChatFields(x), depth);
      FoldChat(NO_CHAT, x);
      assert [] + x.unknown == x.unknown;
    } else {
      LongTextStops(x, [], depth);
      assert EncodeChat(x) + [] == EncodeChat(x);
    }
  }
}
