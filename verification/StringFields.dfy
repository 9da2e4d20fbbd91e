/**
 Many string fields on one memory, under any sequence of operations: each reads as if it were a plain
 string variable, the shared default is never written, and every string on the heap is deleted once
 or handed to one caller.
 */
module StringFields {
  import opened Common
  import opened ArenaString

  /** What the field's users pass on every call: its default pointer and text, and its arena. */
  datatype Config = Config(d: Ref, text: string, arena: Option<nat>)

  datatype Cell = Cell(ptr: Ref, config: Config, alive: bool)

  /** Fields, memory, and the heap strings that callers own. */
  datatype World = World(memory: Memory, cells: seq<Cell>, callers: set<Ref>)

  datatype Op =
    | Declare(config: Config)
    | Set(i: nat, value: string)
    | Change(i: nat, value: string)
    | Release(i: nat)
    | SetAllocated(i: nat, v: Ref, ndebug: bool)
    | Destroy(i: nat)
    | Clear(i: nat)
    | Swap(i: nat, j: nat)
    | CallerNew(value: string)
    | CallerDelete(r: Ref)

  const EMPTY_WORLD := World(INITIAL, [], {})

  /** An empty default is the shared string, any other default is a null pointer. */
  predicate ConfigOk(c: Config) {
    (c.d == EMPTY && c.text == "") || c.d == NULL
  }

  predicate Usable(w: World, i: nat) {
    i < |w.cells| && w.cells[i].alive
  }

  /** What the interface asks of its callers. */
  predicate Enabled(w: World, op: Op) {
    match op
    case Declare(config) => ConfigOk(config)
    case Set(i, _) => Usable(w, i)
    case Change(i, _) => Usable(w, i)
    case Release(i) => Usable(w, i)
    case SetAllocated(i, v, _) => Usable(w, i) && (v == NULL || v in w.callers)
    case Destroy(i) => Usable(w, i)
    case Clear(i) => Usable(w, i)
    case Swap(i, j) => Usable(w, i) && Usable(w, j) && w.cells[i].config == w.cells[j].config
    case CallerNew(_) => true
    case CallerDelete(r) => r in w.callers
  }

  function Put(w: World, i: nat, m: Memory, p: Ref): World
    requires i < |w.cells|
  {
    World(m, w.cells[i := w.cells[i].(ptr := p)], w.callers)
  }

  /** Change is Mutable followed by a write through the pointer it returns. */
  function Step(w: World, op: Op): World
    requires Enabled(w, op)
  {
    var m := w.memory;
    match op
    case Declare(config) => w.(cells := w.cells + [Cell(config.d, config, true)])
    case Set(i, value) =>
      var c := w.cells[i];
      var (m1, p) := SetOn(m, c.ptr, c.config.d, c.config.arena, value);
      Put(w, i, m1, p)
    case Change(i, value) =>
      var c := w.cells[i];
      var (m1, p) := MutableOn(m, c.ptr, c.config.d, c.config.arena, c.config.text);
      Put(w, i, Write(m1, p, value), p)
    case Release(i) =>
      var c := w.cells[i];
      var (m1, p, r) := ReleaseOn(m, c.ptr, c.config.d, c.config.arena);
      Put(w, i, m1, p).(callers := if r == NULL then w.callers else w.callers + {r})
    case SetAllocated(i, v, ndebug) =>
      var c := w.cells[i];
      var (m1, p) := SetAllocatedOn(m, c.ptr, c.config.d, c.config.arena, v, ndebug);
      Put(w, i, m1, p).(callers := w.callers - {v})
    case Destroy(i) =>
      var c := w.cells[i];
      World(DestroyOn(m, c.ptr, c.config.d, c.config.arena), w.cells[i := c.(alive := false)], w.callers)
    case Clear(i) =>
      var c := w.cells[i];
      Put(w, i, ClearOn(m, c.ptr, c.config.d, c.config.text), c.ptr)
    case Swap(i, j) =>
      w.(cells := w.cells[i := w.cells[i].(ptr := w.cells[j].ptr)][j := w.cells[j].(ptr := w.cells[i].ptr)])
    case CallerNew(value) =>
      var (m1, r) := Create(m, None, value);
      World(m1, w.cells, w.callers + {r})
    case CallerDelete(r) => World(Delete(m, r), w.cells, w.callers - {r})
  }

  // ----- the plain model: one string variable per field, and the texts that callers have -----

  datatype Plain = Plain(texts: seq<string>, held: map<Ref, string>)

  const NOTHING := Plain([], map[])

  /** The string that Release gives to the caller: none for a field at its default, the field's own without an arena,
      and a new one with an arena. */
  function GivenOut(w: World, i: nat): Ref
    requires i < |w.cells|
  {
    var c := w.cells[i];
    if c.ptr == c.config.d then NULL else if c.config.arena.None? then c.ptr else w.memory.next
  }

  function PlainStep(w: World, plain: Plain, op: Op): Plain
    requires Enabled(w, op) && |plain.texts| == |w.cells|
  {
    var texts, held := plain.texts, plain.held;
    match op
    case Declare(config) => Plain(texts + [config.text], held)
    case Set(i, value) => Plain(texts[i := value], held)
    case Change(i, value) => Plain(texts[i := value], held)
    case Release(i) =>
      var r := GivenOut(w, i);
      Plain(texts[i := w.cells[i].config.text], if r == NULL then held else held[r := texts[i]])
    case SetAllocated(i, v, _) =>
      Plain(texts[i := if v in held then held[v] else w.cells[i].config.text], held - {v})
    case Destroy(_) => plain
    case Clear(i) => Plain(texts[i := w.cells[i].config.text], held)
    case Swap(i, j) => Plain(texts[i := texts[j]][j := texts[i]], held)
    case CallerNew(value) => Plain(texts, held[w.memory.next := value])
    case CallerDelete(r) => Plain(texts, held - {r})
  }

  /** Get: the default's text, or the text of the field's own string. */
  function Get(w: World, i: nat): string
    requires i < |w.cells|
  {
    var c := w.cells[i];
    if c.ptr == c.config.d || c.ptr !in w.memory.strings then c.config.text else w.memory.strings[c.ptr]
  }

  // ----- what every run keeps -----

  /** Field i owns string r. */
  predicate Holds(w: World, i: nat, r: Ref) {
    Usable(w, i) && w.cells[i].ptr == r && r != w.cells[i].config.d
  }

  ghost predicate StringAt(m: Memory, r: Ref) {
    r in m.strings ==> r < m.next && r != NULL && r in m.kinds && (m.kinds[r] == Shared <==> r == EMPTY)
  }

  /** A string that was created, and is gone, was deleted once; no other was. */
  ghost predicate DeletedAt(m: Memory, r: Ref) {
    m.deleted[r] == if EMPTY < r < m.next && r !in m.strings then 1 else 0
  }

  /** The shared default is there and empty; live strings have not been deleted, deleted ones were deleted once. */
  ghost predicate MemoryOk(m: Memory) {
    && EMPTY in m.strings && m.strings[EMPTY] == "" && m.kinds.Keys == m.strings.Keys
    && (forall r :: StringAt(m, r)) && (forall r :: DeletedAt(m, r))
  }

  ghost predicate CellAt(w: World, i: nat)
    requires i < |w.cells|
  {
    ConfigOk(w.cells[i].config)
    && (w.cells[i].alive ==> FieldOk(w.memory, w.cells[i].ptr, w.cells[i].config.d, w.cells[i].config.arena))
  }

  ghost predicate CellsOk(w: World) {
    forall i :: 0 <= i < |w.cells| ==> CellAt(w, i)
  }

  ghost predicate SoleAt(w: World, i: nat, j: nat, r: Ref) {
    Holds(w, i, r) && Holds(w, j, r) ==> i == j
  }

  /** No string has two owners. */
  ghost predicate Sole(w: World) {
    forall i, j, r :: SoleAt(w, i, j, r)
  }

  ghost predicate FreeAt(w: World, r: Ref, i: nat) {
    !Holds(w, i, r)
  }

  ghost predicate CallerAt(w: World, r: Ref) {
    Owns(w.memory, r, None) && forall i :: FreeAt(w, r, i)
  }

  /** What callers own is on the heap, and no field's. */
  ghost predicate CallersOk(w: World) {
    forall r :: r in w.callers ==> CallerAt(w, r)
  }

  ghost predicate OwnedAt(w: World, r: Ref) {
    r in w.memory.kinds && w.memory.kinds[r] == OnHeap ==> r in w.callers || exists i :: Holds(w, i, r)
  }

  /** Every string on the heap has an owner: nothing leaks. */
  ghost predicate NoLeak(w: World) {
    forall r :: OwnedAt(w, r)
  }

  ghost predicate TextAt(w: World, texts: seq<string>, i: nat)
    requires i < |w.cells| == |texts|
  {
    w.cells[i].alive ==> Get(w, i) == texts[i]
  }

  ghost predicate TextsOk(w: World, texts: seq<string>) {
    |texts| == |w.cells| && forall i :: 0 <= i < |w.cells| ==> TextAt(w, texts, i)
  }

  ghost predicate Inv(w: World, texts: seq<string>) {
    MemoryOk(w.memory) && CellsOk(w) && Sole(w) && CallersOk(w) && NoLeak(w) && TextsOk(w, texts)
  }

  ghost predicate HeldAt(w: World, held: map<Ref, string>, r: Ref) {
    r in held && r in w.memory.strings && w.memory.strings[r] == held[r]
  }

  /** Callers have the strings that the plain model says, with the texts it says. */
  ghost predicate HeldOk(w: World, held: map<Ref, string>) {
    held.Keys == w.callers && forall r :: r in w.callers ==> HeldAt(w, held, r)
  }

  /** The world reads as the plain model. */
  ghost predicate Reads(w: World, plain: Plain) {
    Inv(w, plain.texts) && HeldOk(w, plain.held)
  }

  // ----- one operation -----

  ghost predicate SameAt(m: Memory, m': Memory, r: Ref) {
    && (r in m.strings <==> r in m'.strings) && (r in m.strings ==> m'.strings[r] == m.strings[r])
    && (r in m.kinds <==> r in m'.kinds) && (r in m.kinds ==> m'.kinds[r] == m.kinds[r])
  }

  /** From w to w' only cell i changed (none if there is no cell i), and only the strings in `touched`, which no other
      cell holds. */
  ghost predicate Local(w: World, w': World, i: nat, touched: set<Ref>) {
    && |w'.cells| == |w.cells| && (forall k :: 0 <= k < |w.cells| && k != i ==> w'.cells[k] == w.cells[k])
    && (forall r :: r !in touched ==> SameAt(w.memory, w'.memory, r))
    && (forall k, r :: r in touched && Holds(w, k, r) ==> k == i)
  }

  /** Cell i is in order again, and shares its string with nobody. */
  ghost predicate Settled(w: World, w': World, i: nat, touched: set<Ref>)
    requires |w'.cells| == |w.cells|
  {
    i < |w.cells| ==>
      && CellAt(w', i)
      && (forall r :: Holds(w', i, r) ==> r !in w'.callers && forall k :: k != i ==> FreeAt(w, r, k))
      && (forall r :: Holds(w, i, r) ==> r in touched || Holds(w', i, r))
  }

  /** Callers own what they owned or were just given; heap strings that were touched have an owner. */
  ghost predicate Handed(w: World, w': World, i: nat, touched: set<Ref>) {
    && (forall r :: r in w'.callers ==>
        (r in w.callers || r in touched) && Owns(w'.memory, r, None) && FreeAt(w', r, i))
    && (forall r :: r in w.callers ==> r in w'.callers || r in touched)
    && (forall r :: r in touched ==> OwnedAt(w', r))
  }

  lemma CellsKept(w: World, w': World, i: nat, touched: set<Ref>)
    requires CellsOk(w) && Local(w, w', i, touched) && Settled(w, w', i, touched)
    ensures CellsOk(w')
  {
    forall k | 0 <= k < |w'.cells|
      ensures CellAt(w', k)
    {
      assert CellAt(w, k);
      if k != i && w.cells[k].alive {
        assert Holds(w, k, w.cells[k].ptr) || w.cells[k].ptr == w.cells[k].config.d;
        assert w.cells[k].ptr !in touched || w.cells[k].ptr == w.cells[k].config.d;
        assert SameAt(w.memory, w'.memory, w.cells[k].ptr) || w.cells[k].ptr == w.cells[k].config.d;
      }
    }
  }

  lemma HoldsElsewhere(w: World, w': World, i: nat, touched: set<Ref>, k: nat, r: Ref)
    requires Local(w, w', i, touched) && k != i
    ensures Holds(w', k, r) <==> Holds(w, k, r)
  {
  }

  lemma SoleKept(w: World, w': World, i: nat, touched: set<Ref>)
    requires Sole(w) && Local(w, w', i, touched) && Settled(w, w', i, touched)
    ensures Sole(w')
  {
    forall j, k, r
      ensures SoleAt(w', j, k, r)
    {
      assert SoleAt(w, j, k, r);
      if j != i { HoldsElsewhere(w, w', i, touched, j, r); }
      if k != i { HoldsElsewhere(w, w', i, touched, k, r); }
      assert FreeAt(w, r, j) <==> !Holds(w, j, r);
      assert FreeAt(w, r, k) <==> !Holds(w, k, r);
    }
  }

  lemma CallersKept(w: World, w': World, i: nat, touched: set<Ref>)
    requires CallersOk(w) && Local(w, w', i, touched) && Handed(w, w', i, touched)
    ensures CallersOk(w')
  {
    forall r, k | r in w'.callers
      ensures FreeAt(w', r, k)
    {
      if k != i {
        HoldsElsewhere(w, w', i, touched, k, r);
        if r in w.callers { assert CallerAt(w, r) && FreeAt(w, r, k); }
      }
    }
    forall r | r in w'.callers
      ensures CallerAt(w', r)
    {
    }
  }

  lemma NoLeakKept(w: World, w': World, i: nat, touched: set<Ref>)
    requires NoLeak(w) && Local(w, w', i, touched) && Settled(w, w', i, touched) && Handed(w, w', i, touched)
    ensures NoLeak(w')
  {
    forall r
      ensures OwnedAt(w', r)
    {
      if r !in touched && r in w'.memory.kinds && w'.memory.kinds[r] == OnHeap && r !in w'.callers {
        assert SameAt(w.memory, w'.memory, r) && OwnedAt(w, r);
        var k :| Holds(w, k, r);
        if k != i { HoldsElsewhere(w, w', i, touched, k, r); }
        assert Holds(w', k, r);
      }
    }
  }

  lemma TextsKept(w: World, w': World, texts: seq<string>, texts': seq<string>, i: nat, touched: set<Ref>)
    requires CellsOk(w) && TextsOk(w, texts) && Local(w, w', i, touched) && |texts'| == |w'.cells|
    requires forall k :: 0 <= k < |w.cells| && k != i ==> texts'[k] == texts[k]
    requires i < |w.cells| ==> TextAt(w', texts', i)
    ensures TextsOk(w', texts')
  {
    forall k | 0 <= k < |w'.cells|
      ensures TextAt(w', texts', k)
    {
      assert TextAt(w, texts, k) && CellAt(w, k);
      if k != i && w.cells[k].alive && w.cells[k].ptr != w.cells[k].config.d {
        assert Holds(w, k, w.cells[k].ptr);
        assert SameAt(w.memory, w'.memory, w.cells[k].ptr);
      }
    }
  }

  /** A local change that settles its own cell keeps everything. */
  lemma LocalKeeps(w: World, w': World, texts: seq<string>, texts': seq<string>, i: nat, touched: set<Ref>)
    requires Inv(w, texts) && MemoryOk(w'.memory)
    requires Local(w, w', i, touched) && Settled(w, w', i, touched) && Handed(w, w', i, touched)
    requires |texts'| == |w'.cells| && (forall k :: 0 <= k < |w.cells| && k != i ==> texts'[k] == texts[k])
    requires i < |w.cells| ==> TextAt(w', texts', i)
    ensures Inv(w', texts')
  {
    CellsKept(w, w', i, touched);
    SoleKept(w, w', i, touched);
    CallersKept(w, w', i, touched);
    NoLeakKept(w, w', i, touched);
    TextsKept(w, w', texts, texts', i, touched);
  }

  // ----- the memory under each operation -----

  lemma CreateOk(m: Memory, arena: Option<nat>, value: string)
    requires MemoryOk(m)
    ensures MemoryOk(Create(m, arena, value).0)
    ensures m.next !in m.strings && m.next != NULL && m.next != EMPTY
  {
    var m' := Create(m, arena, value).0;
    assert StringAt(m, EMPTY) && StringAt(m, m.next);
    forall r
      ensures StringAt(m', r) && DeletedAt(m', r)
    {
      assert StringAt(m, r) && DeletedAt(m, r);
    }
  }

  lemma WriteOk(m: Memory, p: Ref, value: string)
    requires MemoryOk(m) && p in m.strings && p != EMPTY
    ensures MemoryOk(Write(m, p, value))
  {
    var m' := Write(m, p, value);
    forall r
      ensures StringAt(m', r) && DeletedAt(m', r)
    {
      assert StringAt(m, r) && DeletedAt(m, r);
    }
  }

  lemma DeleteOk(m: Memory, p: Ref)
    requires MemoryOk(m) && p in m.strings && p != EMPTY
    ensures MemoryOk(Delete(m, p))
  {
    var m' := Delete(m, p);
    assert StringAt(m, p);
    forall r
      ensures StringAt(m', r) && DeletedAt(m', r)
    {
      assert StringAt(m, r) && DeletedAt(m, r);
    }
  }

  lemma AdoptOk(m: Memory, v: Ref, arena: Option<nat>)
    requires MemoryOk(m) && v in m.strings && v != EMPTY
    ensures MemoryOk(m.(kinds := m.kinds[v := KindOn(arena)]))
  {
    var m' := m.(kinds := m.kinds[v := KindOn(arena)]);
    forall r
      ensures StringAt(m', r) && DeletedAt(m', r)
    {
      assert StringAt(m, r) && DeletedAt(m, r);
    }
  }

  // ----- who holds what -----

  lemma HeldIs(w: World, k: nat, r: Ref)
    requires MemoryOk(w.memory) && CellsOk(w) && Holds(w, k, r)
    ensures Owns(w.memory, r, w.cells[k].config.arena) && r < w.memory.next && r != EMPTY && r != NULL
  {
    assert CellAt(w, k) && StringAt(w.memory, r);
  }

  /** The string of a field that is not at its default. */
  lemma OwnString(w: World, texts: seq<string>, i: nat)
    requires Inv(w, texts) && Usable(w, i) && w.cells[i].ptr != w.cells[i].config.d
    ensures var p := w.cells[i].ptr;
            && Holds(w, i, p) && Owns(w.memory, p, w.cells[i].config.arena) && p != EMPTY && p != NULL
               && p < w.memory.next
            && p !in w.callers && forall k :: Holds(w, k, p) ==> k == i
  {
    var p := w.cells[i].ptr;
    HeldIs(w, i, p);
    NotHeld(w, i);
    forall k | Holds(w, k, p)
      ensures k == i
    {
      assert SoleAt(w, i, k, p);
    }
  }

  lemma NotHeld(w: World, i: nat)
    requires CallersOk(w)
    ensures forall r :: r in w.callers ==> !Holds(w, i, r)
  {
    forall r | r in w.callers
      ensures !Holds(w, i, r)
    {
      assert CallerAt(w, r) && FreeAt(w, r, i);
    }
  }

  /** The next new string is nobody's yet. */
  lemma NextIsNew(w: World, texts: seq<string>)
    requires Inv(w, texts)
    ensures forall k :: !Holds(w, k, w.memory.next)
    ensures w.memory.next !in w.callers && w.memory.next !in w.memory.strings && w.memory.next !in w.memory.kinds
    ensures w.memory.next != EMPTY && w.memory.next != NULL
  {
    CreateOk(w.memory, None, "");
    forall k: nat, r: Ref | Holds(w, k, r)
      ensures r < w.memory.next
    {
      HeldIs(w, k, r);
    }
    forall r | r in w.callers
      ensures r in w.memory.strings
    {
      assert CallerAt(w, r);
    }
  }

  lemma CallersString(w: World, texts: seq<string>, r: Ref)
    requires Inv(w, texts) && r in w.callers
    ensures Owns(w.memory, r, None) && r != EMPTY && r != NULL && r < w.memory.next && forall k :: !Holds(w, k, r)
  {
    assert CallerAt(w, r) && StringAt(w.memory, r);
    forall k
      ensures !Holds(w, k, r)
    {
      assert FreeAt(w, r, k);
    }
  }

  // ----- each operation -----

  lemma SetKeeps(w: World, texts: seq<string>, i: nat, value: string)
    requires Inv(w, texts) && Usable(w, i)
    ensures Inv(Step(w, Set(i, value)), texts[i := value])
  {
    var c := w.cells[i];
    var w' := Step(w, Set(i, value));
    NextIsNew(w, texts);
    assert CellAt(w, i);
    if c.ptr == c.config.d {
      CreateOk(w.memory, c.config.arena, value);
      assert Holds(w', i, w.memory.next);
      LocalKeeps(w, w', texts, texts[i := value], i, {w.memory.next});
    } else {
      OwnString(w, texts, i);
      WriteOk(w.memory, c.ptr, value);
      assert Holds(w', i, c.ptr);
      LocalKeeps(w, w', texts, texts[i := value], i, {c.ptr});
    }
  }

  /** Writing through the pointer that Mutable returns is setting. */
  lemma ChangeIsSet(w: World, i: nat, value: string)
    requires Usable(w, i)
    ensures Step(w, Change(i, value)) == Step(w, Set(i, value))
  {
    var c := w.cells[i];
    if c.ptr == c.config.d {
      var m := w.memory;
      assert m.strings[m.next := c.config.text][m.next := value] == m.strings[m.next := value];
    }
  }

  lemma ReleaseKeeps(w: World, texts: seq<string>, i: nat)
    requires Inv(w, texts) && Usable(w, i)
    ensures Inv(Step(w, Release(i)), texts[i := w.cells[i].config.text])
  {
    var c := w.cells[i];
    var w' := Step(w, Release(i));
    NextIsNew(w, texts);
    assert CellAt(w, i) && TextAt(w, texts, i);
    if c.ptr == c.config.d {
      assert w' == w && texts[i := c.config.text] == texts;
    } else {
      OwnString(w, texts, i);
      if c.config.arena.None? {
        LocalKeeps(w, w', texts, texts[i := c.config.text], i, {c.ptr});
      } else {
        CreateOk(w.memory, None, w.memory.strings[c.ptr]);
        WriteOk(Create(w.memory, None, w.memory.strings[c.ptr]).0, c.ptr, "");
        LocalKeeps(w, w', texts, texts[i := c.config.text], i, {c.ptr, w.memory.next});
      }
    }
  }

  lemma DestroyKeeps(w: World, texts: seq<string>, i: nat)
    requires Inv(w, texts) && Usable(w, i)
    ensures Inv(Step(w, Destroy(i)), texts)
  {
    var c := w.cells[i];
    var w' := Step(w, Destroy(i));
    assert CellAt(w, i);
    if c.ptr == c.config.d {
      LocalKeeps(w, w', texts, texts, i, {});
    } else {
      OwnString(w, texts, i);
      if c.config.arena.None? { DeleteOk(w.memory, c.ptr); }
      LocalKeeps(w, w', texts, texts, i, {c.ptr});
    }
  }

  lemma ClearKeeps(w: World, texts: seq<string>, i: nat)
    requires Inv(w, texts) && Usable(w, i)
    ensures Inv(Step(w, Clear(i)), texts[i := w.cells[i].config.text])
  {
    var c := w.cells[i];
    var w' := Step(w, Clear(i));
    assert CellAt(w, i) && TextAt(w, texts, i);
    if c.ptr == c.config.d {
      assert w' == w && texts[i := c.config.text] == texts;
    } else {
      OwnString(w, texts, i);
      WriteOk(w.memory, c.ptr, c.config.text);
      assert Holds(w', i, c.ptr);
      LocalKeeps(w, w', texts, texts[i := c.config.text], i, {c.ptr});
    }
  }

  lemma CallerNewKeeps(w: World, texts: seq<string>, value: string)
    requires Inv(w, texts)
    ensures Inv(Step(w, CallerNew(value)), texts)
  {
    NextIsNew(w, texts);
    CreateOk(w.memory, None, value);
    LocalKeeps(w, Step(w, CallerNew(value)), texts, texts, |w.cells|, {w.memory.next});
  }

  lemma CallerDeleteKeeps(w: World, texts: seq<string>, r: Ref)
    requires Inv(w, texts) && r in w.callers
    ensures Inv(Step(w, CallerDelete(r)), texts)
  {
    CallersString(w, texts, r);
    DeleteOk(w.memory, r);
    LocalKeeps(w, Step(w, CallerDelete(r)), texts, texts, |w.cells|, {r});
  }

  /** What SetAllocated will make the field say. */
  function Given(w: World, i: nat, v: Ref): string
    requires i < |w.cells|
  {
    if v == NULL || v !in w.memory.strings then w.cells[i].config.text else w.memory.strings[v]
  }

  /** SetAllocated starts by dropping what the field has. */
  function Dropped(w: World, i: nat): Memory
    requires i < |w.cells|
  {
    DestroyOn(w.memory, w.cells[i].ptr, w.cells[i].config.d, w.cells[i].config.arena)
  }

  function OwnSet(w: World, i: nat): set<Ref>
    requires i < |w.cells|
  {
    if w.cells[i].ptr == w.cells[i].config.d then {} else {w.cells[i].ptr}
  }

  lemma DroppedOk(w: World, texts: seq<string>, i: nat)
    requires Inv(w, texts) && Usable(w, i)
    ensures MemoryOk(Dropped(w, i)) && Dropped(w, i).next == w.memory.next
    ensures forall r :: r !in OwnSet(w, i) ==> SameAt(w.memory, Dropped(w, i), r)
    ensures forall r :: r in OwnSet(w, i) && r in Dropped(w, i).kinds ==> Dropped(w, i).kinds[r] != OnHeap
    ensures forall k, r :: r in OwnSet(w, i) && Holds(w, k, r) ==> k == i
    ensures forall r :: Holds(w, i, r) ==> r in OwnSet(w, i)
    ensures forall r :: r in OwnSet(w, i) ==> r !in w.callers && r < w.memory.next
  {
    if w.cells[i].ptr != w.cells[i].config.d {
      OwnString(w, texts, i);
      if w.cells[i].config.arena.None? { DeleteOk(w.memory, w.cells[i].ptr); }
    }
  }

  lemma SetAllocatedKeeps(w: World, texts: seq<string>, i: nat, v: Ref, ndebug: bool)
    requires Inv(w, texts) && Usable(w, i) && (v == NULL || v in w.callers)
    ensures Inv(Step(w, SetAllocated(i, v, ndebug)), texts[i := Given(w, i, v)])
  {
    if v == NULL {
      SetNothing(w, texts, i, ndebug);
    } else if ndebug {
      SetTaken(w, texts, i, v);
    } else {
      SetCopied(w, texts, i, v);
    }
  }

  lemma SetNothing(w: World, texts: seq<string>, i: nat, ndebug: bool)
    requires Inv(w, texts) && Usable(w, i)
    ensures Inv(Step(w, SetAllocated(i, NULL, ndebug)), texts[i := w.cells[i].config.text])
  {
    assert CellAt(w, i);
    DroppedOk(w, texts, i);
    NullIsNotOwned(w, texts);
    LocalKeeps(w, Step(w, SetAllocated(i, NULL, ndebug)), texts, texts[i := w.cells[i].config.text], i, OwnSet(w, i));
  }

  /** The caller's string becomes the field's. */
  lemma SetTaken(w: World, texts: seq<string>, i: nat, v: Ref)
    requires Inv(w, texts) && Usable(w, i) && v in w.callers
    ensures Inv(Step(w, SetAllocated(i, v, true)), texts[i := Given(w, i, v)])
  {
    var w' := Step(w, SetAllocated(i, v, true));
    assert CellAt(w, i);
    DroppedOk(w, texts, i);
    CallersString(w, texts, v);
    AdoptOk(Dropped(w, i), v, w.cells[i].config.arena);
    assert Holds(w', i, v);
    LocalKeeps(w, w', texts, texts[i := Given(w, i, v)], i, OwnSet(w, i) + {v});
  }

  /** The caller's string is copied and deleted. */
  lemma SetCopied(w: World, texts: seq<string>, i: nat, v: Ref)
    requires Inv(w, texts) && Usable(w, i) && v in w.callers
    ensures Inv(Step(w, SetAllocated(i, v, false)), texts[i := Given(w, i, v)])
  {
    var arena, w' := w.cells[i].config.arena, Step(w, SetAllocated(i, v, false));
    assert CellAt(w, i);
    DroppedOk(w, texts, i);
    NextIsNew(w, texts);
    CallersString(w, texts, v);
    CreateOk(Dropped(w, i), arena, w.memory.strings[v]);
    DeleteOk(Create(Dropped(w, i), arena, w.memory.strings[v]).0, v);
    assert Holds(w', i, w.memory.next);
    LocalKeeps(w, w', texts, texts[i := Given(w, i, v)], i, OwnSet(w, i) + {v, w.memory.next});
  }

  lemma NullIsNotOwned(w: World, texts: seq<string>)
    requires Inv(w, texts)
    ensures NULL !in w.callers
  {
    assert StringAt(w.memory, NULL);
    forall r | r in w.callers
      ensures r in w.memory.strings
    {
      assert CallerAt(w, r);
    }
  }

  /** Where field k's string was before i and j were swapped. */
  function Other(i: nat, j: nat, k: nat): nat {
    if k == i then j else if k == j then i else k
  }

  lemma SwapHolds(w: World, i: nat, j: nat, k: nat, r: Ref)
    requires Enabled(w, Swap(i, j))
    ensures Holds(Step(w, Swap(i, j)), k, r) <==> Holds(w, Other(i, j, k), r)
  {
  }

  lemma SwapCells(w: World, texts: seq<string>, i: nat, j: nat)
    requires Inv(w, texts) && Enabled(w, Swap(i, j))
    ensures CellsOk(Step(w, Swap(i, j))) && TextsOk(Step(w, Swap(i, j)), texts[i := texts[j]][j := texts[i]])
  {
    var w', texts' := Step(w, Swap(i, j)), texts[i := texts[j]][j := texts[i]];
    forall k | 0 <= k < |w'.cells|
      ensures CellAt(w', k) && TextAt(w', texts', k)
    {
      assert CellAt(w, Other(i, j, k)) && TextAt(w, texts, Other(i, j, k));
    }
  }

  lemma SwapSole(w: World, texts: seq<string>, i: nat, j: nat)
    requires Inv(w, texts) && Enabled(w, Swap(i, j))
    ensures Sole(Step(w, Swap(i, j)))
  {
    var w' := Step(w, Swap(i, j));
    forall x, y, r
      ensures SoleAt(w', x, y, r)
    {
      SwapHolds(w, i, j, x, r);
      SwapHolds(w, i, j, y, r);
      assert SoleAt(w, Other(i, j, x), Other(i, j, y), r);
    }
  }

  lemma SwapOwners(w: World, texts: seq<string>, i: nat, j: nat)
    requires Inv(w, texts) && Enabled(w, Swap(i, j))
    ensures CallersOk(Step(w, Swap(i, j))) && NoLeak(Step(w, Swap(i, j)))
  {
    var w' := Step(w, Swap(i, j));
    forall r, k | r in w.callers
      ensures FreeAt(w', r, k)
    {
      SwapHolds(w, i, j, k, r);
      assert CallerAt(w, r) && FreeAt(w, r, Other(i, j, k));
    }
    forall r | r in w'.callers
      ensures CallerAt(w', r)
    {
      assert CallerAt(w, r);
    }
    forall r
      ensures OwnedAt(w', r)
    {
      assert OwnedAt(w, r);
      if k :| Holds(w, k, r) {
        SwapHolds(w, i, j, Other(i, j, k), r);
        assert Holds(w', Other(i, j, k), r);
      }
    }
  }

  lemma SwapKeeps(w: World, texts: seq<string>, i: nat, j: nat)
    requires Inv(w, texts) && Enabled(w, Swap(i, j))
    ensures Inv(Step(w, Swap(i, j)), texts[i := texts[j]][j := texts[i]])
  {
    SwapCells(w, texts, i, j);
    SwapSole(w, texts, i, j);
    SwapOwners(w, texts, i, j);
  }

  lemma DeclareHolds(w: World, config: Config, k: nat, r: Ref)
    requires ConfigOk(config)
    ensures Holds(Step(w, Declare(config)), k, r) <==> Holds(w, k, r)
  {
  }

  lemma DeclareKeeps(w: World, texts: seq<string>, config: Config)
    requires Inv(w, texts) && ConfigOk(config)
    ensures Inv(Step(w, Declare(config)), texts + [config.text])
  {
    var w' := Step(w, Declare(config));
    forall k | 0 <= k < |w'.cells|
      ensures CellAt(w', k) && TextAt(w', texts + [config.text], k)
    {
      if k < |w.cells| { assert CellAt(w, k) && TextAt(w, texts, k); }
    }
    DeclareOwners(w, texts, config);
  }

  lemma DeclareOwners(w: World, texts: seq<string>, config: Config)
    requires Inv(w, texts) && ConfigOk(config)
    ensures Sole(Step(w, Declare(config))) && CallersOk(Step(w, Declare(config))) && NoLeak(Step(w, Declare(config)))
  {
    var w' := Step(w, Declare(config));
    forall x, y, r
      ensures SoleAt(w', x, y, r)
    {
      DeclareHolds(w, config, x, r);
      DeclareHolds(w, config, y, r);
      assert SoleAt(w, x, y, r);
    }
    forall r, k | r in w.callers
      ensures FreeAt(w', r, k)
    {
      DeclareHolds(w, config, k, r);
      assert CallerAt(w, r) && FreeAt(w, r, k);
    }
    forall r | r in w'.callers
      ensures CallerAt(w', r)
    {
      assert CallerAt(w, r);
    }
    forall r
      ensures OwnedAt(w', r)
    {
      assert OwnedAt(w, r);
      if k :| Holds(w, k, r) {
        DeclareHolds(w, config, k, r);
        assert Holds(w', k, r);
      }
    }
  }

  // ----- what callers have -----

  /** The strings that callers keep are not touched. */
  lemma HeldKept(w: World, w': World, held: map<Ref, string>, touched: set<Ref>)
    requires HeldOk(w, held) && w'.callers == w.callers && touched !! w.callers
    requires forall r :: r !in touched ==> SameAt(w.memory, w'.memory, r)
    ensures HeldOk(w', held)
  {
    forall r | r in w'.callers
      ensures HeldAt(w', held, r)
    {
      assert HeldAt(w, held, r) && SameAt(w.memory, w'.memory, r);
    }
  }

  /** Operations that neither take a string from a caller nor give one. */
  lemma OthersKeepHeld(w: World, plain: Plain, op: Op)
    requires Reads(w, plain) && Enabled(w, op)
    requires op.Declare? || op.Set? || op.Destroy? || op.Clear? || op.Swap?
    ensures HeldOk(Step(w, op), PlainStep(w, plain, op).held)
  {
    NextIsNew(w, plain.texts);
    if op.Declare? || op.Swap? {
      HeldKept(w, Step(w, op), plain.held, {});
    } else if w.cells[op.i].ptr == w.cells[op.i].config.d {
      HeldKept(w, Step(w, op), plain.held, {w.memory.next});
    } else {
      OwnString(w, plain.texts, op.i);
      HeldKept(w, Step(w, op), plain.held, {w.cells[op.i].ptr});
    }
  }

  /** A field that is not at its default gives its text away: the caller has one more string, on the heap, with exactly
      that text; the field is at its default. A field at its default gives nothing. */
  lemma ReleaseGives(w: World, texts: seq<string>, i: nat)
    requires Inv(w, texts) && Usable(w, i)
    ensures var c, w', r := w.cells[i], Step(w, Release(i)), GivenOut(w, i);
            && Get(w', i) == c.config.text
            && if c.ptr == c.config.d then w' == w
               else r !in w.callers && w'.callers == w.callers + {r} && Owns(w'.memory, r, None)
                    && w'.memory.strings[r] == Get(w, i)
  {
    NextIsNew(w, texts);
    if w.cells[i].ptr != w.cells[i].config.d { OwnString(w, texts, i); }
  }

  lemma ReleaseKeepsHeld(w: World, plain: Plain, i: nat)
    requires Reads(w, plain) && Usable(w, i)
    ensures HeldOk(Step(w, Release(i)), PlainStep(w, plain, Release(i)).held)
  {
    var p, r, w' := w.cells[i].ptr, GivenOut(w, i), Step(w, Release(i));
    var held' := PlainStep(w, plain, Release(i)).held;
    ReleaseGives(w, plain.texts, i);
    if p != w.cells[i].config.d {
      OwnString(w, plain.texts, i);
      NextIsNew(w, plain.texts);
      assert TextAt(w, plain.texts, i);
      forall x | x in w'.callers
        ensures HeldAt(w', held', x)
      {
        assert x == r || HeldAt(w, plain.held, x);
      }
    }
  }

  lemma SetAllocatedKeepsHeld(w: World, plain: Plain, i: nat, v: Ref, ndebug: bool)
    requires Reads(w, plain) && Usable(w, i) && (v == NULL || v in w.callers)
    ensures HeldOk(Step(w, SetAllocated(i, v, ndebug)), plain.held - {v})
    ensures Given(w, i, v) == if v in plain.held then plain.held[v] else w.cells[i].config.text
  {
    var w' := Step(w, SetAllocated(i, v, ndebug));
    DroppedOk(w, plain.texts, i);
    NextIsNew(w, plain.texts);
    NullIsNotOwned(w, plain.texts);
    if v != NULL { assert HeldAt(w, plain.held, v); }
    forall r | r in w'.callers
      ensures HeldAt(w', plain.held - {v}, r)
    {
      assert HeldAt(w, plain.held, r) && r !in OwnSet(w, i) && SameAt(w.memory, Dropped(w, i), r);
    }
  }

  lemma CallersKeepHeld(w: World, plain: Plain, op: Op)
    requires Reads(w, plain) && Enabled(w, op) && (op.CallerNew? || op.CallerDelete?)
    ensures HeldOk(Step(w, op), PlainStep(w, plain, op).held)
  {
    NextIsNew(w, plain.texts);
    forall r | r in Step(w, op).callers
      ensures HeldAt(Step(w, op), PlainStep(w, plain, op).held, r)
    {
      assert r in w.callers ==> HeldAt(w, plain.held, r);
    }
  }

  lemma StepKeepsHeld(w: World, plain: Plain, op: Op)
    requires Reads(w, plain) && Enabled(w, op)
    ensures HeldOk(Step(w, op), PlainStep(w, plain, op).held)
  {
    hide Step, HeldOk, Inv;
    match op
    case Release(i) => ReleaseKeepsHeld(w, plain, i);
    case SetAllocated(i, v, ndebug) => SetAllocatedKeepsHeld(w, plain, i, v, ndebug);
    case CallerNew(_) => CallersKeepHeld(w, plain, op);
    case CallerDelete(_) => CallersKeepHeld(w, plain, op);
    case Change(i, value) => ChangeIsSet(w, i, value); OthersKeepHeld(w, plain, Set(i, value));
    case _ => OthersKeepHeld(w, plain, op);
  }

  /** A field that has a string of its own keeps that string when it is set, changed or cleared: nothing is created. */
  lemma OwnStringIsReused(w: World, texts: seq<string>, i: nat, op: Op)
    requires Inv(w, texts) && Usable(w, i) && w.cells[i].ptr != w.cells[i].config.d
    requires (op.Set? || op.Change? || op.Clear?) && op.i == i
    ensures var w' := Step(w, op);
            && w'.cells == w.cells && w'.memory.next == w.memory.next && w'.memory.kinds == w.memory.kinds
            && Get(w', i) == if op.Clear? then w.cells[i].config.text else op.value
  {
    OwnString(w, texts, i);
    assert w.cells[i := w.cells[i].(ptr := w.cells[i].ptr)] == w.cells;
  }

  // ----- whole runs -----

  /** Every operation keeps the ownership of strings, and changes what the fields say, and what callers have, as plain
      variables would change. */
  lemma StepKeeps(w: World, plain: Plain, op: Op)
    requires Reads(w, plain) && Enabled(w, op)
    ensures Reads(Step(w, op), PlainStep(w, plain, op))
  {
    hide Inv, Step, HeldOk;
    var texts := plain.texts;
    StepKeepsHeld(w, plain, op);
    match op
    case Declare(config) => DeclareKeeps(w, texts, config);
    case Set(i, value) => SetKeeps(w, texts, i, value);
    case Change(i, value) => ChangeIsSet(w, i, value); SetKeeps(w, texts, i, value);
    case Release(i) => ReleaseKeeps(w, texts, i);
    case SetAllocated(i, v, ndebug) =>
      SetAllocatedKeepsHeld(w, plain, i, v, ndebug);
      SetAllocatedKeeps(w, texts, i, v, ndebug);
    case Destroy(i) => DestroyKeeps(w, texts, i);
    case Clear(i) => ClearKeeps(w, texts, i);
    case Swap(i, j) => SwapKeeps(w, texts, i, j);
    case CallerNew(value) => CallerNewKeeps(w, texts, value);
    case CallerDelete(r) => CallerDeleteKeeps(w, texts, r);
  }

  ghost predicate IsRun(w: World, ops: seq<Op>)
    decreases |ops|
  {
    ops == [] || (Enabled(w, ops[0]) && IsRun(Step(w, ops[0]), ops[1..]))
  }

  ghost function After(w: World, ops: seq<Op>): World
    requires IsRun(w, ops)
    decreases |ops|
  {
    if ops == [] then w else After(Step(w, ops[0]), ops[1..])
  }

  ghost function PlainAfter(w: World, plain: Plain, ops: seq<Op>): Plain
    requires IsRun(w, ops) && Reads(w, plain)
    decreases |ops|
  {
    if ops == [] then plain else
    StepKeeps(w, plain, ops[0]);
    PlainAfter(Step(w, ops[0]), PlainStep(w, plain, ops[0]), ops[1..])
  }

  lemma EmptyWorldOk()
    ensures Reads(EMPTY_WORLD, NOTHING)
  {
    forall r
      ensures StringAt(INITIAL, r) && DeletedAt(INITIAL, r) && OwnedAt(EMPTY_WORLD, r)
    {
    }
  }

  lemma {:induction false} RunKeeps(w: World, plain: Plain, ops: seq<Op>)
    requires Reads(w, plain) && IsRun(w, ops)
    ensures Reads(After(w, ops), PlainAfter(w, plain, ops))
    decreases |ops|
  {
    hide Step;
    if ops != [] {
      StepKeeps(w, plain, ops[0]);
      RunKeeps(Step(w, ops[0]), PlainStep(w, plain, ops[0]), ops[1..]);
    }
  }

  /** After any run every field in use reads as its plain variable does, every caller's string has the text it should
      have, and the shared default is still empty. */
  lemma FieldsReadAsStrings(ops: seq<Op>, i: nat, r: Ref)
    requires IsRun(EMPTY_WORLD, ops)
    ensures Reads(EMPTY_WORLD, NOTHING)
    ensures var w, plain := After(EMPTY_WORLD, ops), PlainAfter(EMPTY_WORLD, NOTHING, ops);
            && (Usable(w, i) ==> i < |plain.texts| && Get(w, i) == plain.texts[i])
            && (r in w.callers <==> r in plain.held)
            && (r in w.callers ==> r in w.memory.strings && w.memory.strings[r] == plain.held[r])
            && EMPTY in w.memory.strings && w.memory.strings[EMPTY] == ""
  {
    EmptyWorldOk();
    RunKeeps(EMPTY_WORLD, NOTHING, ops);
    var w, plain := After(EMPTY_WORLD, ops), PlainAfter(EMPTY_WORLD, NOTHING, ops);
    assert i < |w.cells| ==> TextAt(w, plain.texts, i);
    assert r in w.callers ==> HeldAt(w, plain.held, r);
  }

  /** After any run no two fields share a string of their own, and none shares one with a caller. */
  lemma NoAliasing(ops: seq<Op>, i: nat, j: nat, r: Ref)
    requires IsRun(EMPTY_WORLD, ops) && Holds(After(EMPTY_WORLD, ops), i, r)
    ensures r != EMPTY && r !in After(EMPTY_WORLD, ops).callers && (Holds(After(EMPTY_WORLD, ops), j, r) ==> i == j)
  {
    EmptyWorldOk();
    RunKeeps(EMPTY_WORLD, NOTHING, ops);
    OwnString(After(EMPTY_WORLD, ops), PlainAfter(EMPTY_WORLD, NOTHING, ops).texts, i);
  }

  /** Once the fields without an arena are destroyed, each string ever put on the heap was deleted exactly once,
      or is a caller's, or was taken over by an arena. */
  lemma HeapAccounted(ops: seq<Op>, r: Ref)
    requires IsRun(EMPTY_WORLD, ops)
    requires forall i: nat :: Usable(After(EMPTY_WORLD, ops), i) ==> After(EMPTY_WORLD, ops).cells[i].config.arena.Some?
    ensures var w := After(EMPTY_WORLD, ops);
            && w.memory.deleted[r] == (if EMPTY < r < w.memory.next && r !in w.memory.strings then 1 else 0)
            && (r in w.memory.kinds && w.memory.kinds[r] == OnHeap <==> r in w.callers)
  {
    EmptyWorldOk();
    RunKeeps(EMPTY_WORLD, NOTHING, ops);
    var w := After(EMPTY_WORLD, ops);
    assert StringAt(w.memory, r) && DeletedAt(w.memory, r) && OwnedAt(w, r);
    if r in w.callers { assert CallerAt(w, r); }
    forall i | Holds(w, i, r)
      ensures r !in w.memory.kinds || w.memory.kinds[r] != OnHeap
    {
      assert CellAt(w, i);
    }
  }
}
