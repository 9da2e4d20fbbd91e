/**
 ArenaStringPtr: a string field that shares a default string until it is changed, then owns a string
 on the heap, or on an arena if its message is on one.
 */
module ArenaString {
  import opened Common

  /** Addresses of std::string objects; 0 is the null pointer. */
  type Ref = nat

  const NULL: Ref := 0

  /** GetEmptyStringAlreadyInited: the shared default of all fields whose default is empty. */
  const EMPTY: Ref := 1

  /** Who has to get rid of a string: nobody, whoever holds it, or the arena it is on. */
  datatype Kind = Shared | OnHeap | OnArena(arena: nat)

  /** Live strings, who owns them, where the next one will be, and how often each was deleted. */
  datatype Memory = Memory(strings: map<Ref, string>, kinds: map<Ref, Kind>, next: Ref, deleted: multiset<Ref>)

  const INITIAL := Memory(map[EMPTY := ""], map[EMPTY := Shared], 2, multiset{})

  function KindOn(arena: Option<nat>): Kind {
    if arena.Some? then OnArena(arena.value) else OnHeap
  }

  /** Arena::Create<std::string>, which is plain `new` without an arena. */
  function Create(m: Memory, arena: Option<nat>, value: string): (Memory, Ref) {
    (Memory(m.strings[m.next := value], m.kinds[m.next := KindOn(arena)], m.next + 1, m.deleted), m.next)
  }

  function Delete(m: Memory, r: Ref): Memory {
    Memory(m.strings - {r}, m.kinds - {r}, m.next, m.deleted + multiset{r})
  }

  function Write(m: Memory, r: Ref, value: string): Memory {
    m.(strings := m.strings[r := value])
  }

  // ----- the operations on one field: pointer p, default pointer d -----

  function SetOn(m: Memory, p: Ref, d: Ref, arena: Option<nat>, value: string): (Memory, Ref) {
    if p == d then Create(m, arena, value) else (Write(m, p, value), p)
  }

  function MutableOn(m: Memory, p: Ref, d: Ref, arena: Option<nat>, text: string): (Memory, Ref) {
    if p == d then Create(m, arena, text) else (m, p)
  }

  /** The memory, the new pointer, and the string given to the caller. */
  function ReleaseOn(m: Memory, p: Ref, d: Ref, arena: Option<nat>): (Memory, Ref, Ref) {
    if p == d then (m, d, NULL)
    else if arena.None? then (m, d, p)
    else
      var (m1, r) := Create(m, None, if p in m.strings then m.strings[p] else "");
      (Write(m1, p, ""), d, r)
  }

  /** In release builds the string itself is taken over, in debug builds a copy of it. */
  function SetAllocatedOn(m: Memory, p: Ref, d: Ref, arena: Option<nat>, v: Ref, ndebug: bool): (Memory, Ref) {
    var m1 := if arena.None? && p != d then Delete(m, p) else m;
    if v == NULL then (m1, d)
    else if ndebug then (m1.(kinds := m1.kinds[v := KindOn(arena)]), v)
    else
      var (m2, r) := Create(m1, arena, if v in m1.strings then m1.strings[v] else "");
      (Delete(m2, v), r)
  }

  function DestroyOn(m: Memory, p: Ref, d: Ref, arena: Option<nat>): Memory {
    if arena.None? && p != d then Delete(m, p) else m
  }

  function ClearOn(m: Memory, p: Ref, d: Ref, text: string): Memory {
    if p == d then m else Write(m, p, text)
  }

  // ----- the field -----

  class StringHeap {
    var strings: map<Ref, string>
    var kinds: map<Ref, Kind>
    var next: Ref
    ghost var deleted: multiset<Ref>

    ghost function Value(): Memory
      reads this
    {
      Memory(strings, kinds, next, deleted)
    }

    constructor ()
      ensures Value() == INITIAL
    {
      strings, kinds, next := map[EMPTY := ""], map[EMPTY := Shared], 2;
      deleted := multiset{};
    }

    /** Arena::Create<std::string>: on the arena if there is one, else by operator new. */
    method New(arena: Option<nat>, value: string) returns (r: Ref)
      modifies this
      ensures (Value(), r) == Create(old(Value()), arena, value)
    {
      r := next;
      next := next + 1;
      strings := strings[r := value];
      if arena.Some? {
        kinds := kinds[r := OnArena(arena.value)];
      } else {
        kinds := kinds[r := OnHeap];
      }
    }

    /** operator delete: only for a live string on the heap. */
    method Free(r: Ref)
      requires r in strings && r in kinds && kinds[r] == OnHeap
      modifies this
      ensures Value() == Delete(old(Value()), r)
    {
      strings, kinds := strings - {r}, kinds - {r};
      deleted := deleted + multiset{r};
    }

    /** Changing a string in place: never a shared one. */
    method Assign(r: Ref, value: string)
      requires r in strings && r in kinds && kinds[r] != Shared
      modifies this`strings
      ensures Value() == Write(old(Value()), r, value)
    {
      strings := strings[r := value];
    }

    /** Arena::Own: from now on the arena deletes the string. */
    method Own(r: Ref, arena: nat)
      modifies this`kinds
      ensures Value() == old(Value()).(kinds := old(kinds)[r := OnArena(arena)])
    {
      kinds := kinds[r := OnArena(arena)];
    }
  }

  /** p is a string that a field on this arena may own. */
  ghost predicate Owns(m: Memory, p: Ref, arena: Option<nat>) {
    p in m.strings && p in m.kinds && m.kinds[p] == KindOn(arena)
  }

  /** The two states of a field: its default, or a string of its own. */
  ghost predicate FieldOk(m: Memory, p: Ref, d: Ref, arena: Option<nat>) {
    p == d || Owns(m, p, arena)
  }

  class ArenaStringPtr {
    var ptr: Ref

    /** UnsafeSetDefault */
    constructor (d: Ref)
      ensures ptr == d
    {
      ptr := d;
    }

    predicate IsDefault(d: Ref)
      reads this
    {
      ptr == d
    }

    method Set(heap: StringHeap, d: Ref, value: string, arena: Option<nat>)
      requires FieldOk(heap.Value(), ptr, d, arena)
      modifies this, heap
      ensures (heap.Value(), ptr) == SetOn(old(heap.Value()), old(ptr), d, arena, value)
      ensures ptr in heap.strings && heap.strings[ptr] == value && (old(ptr) != d ==> ptr == old(ptr))
    {
      if IsDefault(d) {
        ptr := heap.New(arena, value);
      } else {
        heap.Assign(ptr, value);
      }
    }

    /** Mutable, and MutableNoCopy with an empty text: a string of the field's own. */
    method Mutable(heap: StringHeap, d: Ref, text: string, arena: Option<nat>) returns (r: Ref)
      modifies this, heap
      ensures (heap.Value(), ptr) == MutableOn(old(heap.Value()), old(ptr), d, arena, text) && r == ptr
      ensures if old(ptr) == d then Owns(heap.Value(), r, arena) && heap.strings[r] == text
              else r == old(ptr) && heap.Value() == old(heap.Value())
    {
      if IsDefault(d) {
        ptr := heap.New(arena, text);
      }
      r := ptr;
    }

    method Release(heap: StringHeap, d: Ref, arena: Option<nat>) returns (released: Ref)
      requires FieldOk(heap.Value(), ptr, d, arena) && heap.next !in heap.strings
      modifies this, heap
      ensures (heap.Value(), ptr, released) == ReleaseOn(old(heap.Value()), old(ptr), d, arena)
      ensures ptr == d && (old(ptr) == d ==> released == NULL)
      ensures old(ptr) != d ==>
                && Owns(heap.Value(), released, None) && heap.strings[released] == old(heap.strings[ptr])
                && if arena.None? then released == old(ptr) else released !in old(heap.strings)
    {
      if IsDefault(d) { return NULL; }
      if arena.Some? {
        released := heap.New(None, "");
        var content := heap.strings[ptr];
        heap.Assign(released, content);
        heap.Assign(ptr, "");
        assert old(heap.strings)[released := ""][released := content] == old(heap.strings)[released := content];
      } else {
        released := ptr;
      }
      ptr := d;
    }

    method SetAllocated(heap: StringHeap, d: Ref, value: Ref, arena: Option<nat>, ndebug: bool)
      requires FieldOk(heap.Value(), ptr, d, arena)
      requires value != NULL ==>
               Owns(heap.Value(), value, None) && (value != ptr || ptr == d) && heap.next !in heap.strings
      requires value < heap.next
      modifies this, heap
      ensures (heap.Value(), ptr) == SetAllocatedOn(old(heap.Value()), old(ptr), d, arena, value, ndebug)
      ensures if value == NULL then ptr == d
              else Owns(heap.Value(), ptr, arena) && heap.strings[ptr] == old(heap.strings[value])
    {
      if arena.None? && !IsDefault(d) {
        heap.Free(ptr);
      }
      if value == NULL {
        ptr := d;
      } else if ndebug {
        ptr := value;
        if arena.Some? {
          heap.Own(value, arena.value);
        } else {
          assert heap.kinds[value := OnHeap] == heap.kinds;
        }
      } else {
        ptr := heap.New(arena, heap.strings[value]);
        heap.Free(value);
      }
    }

    method Destroy(heap: StringHeap, d: Ref, arena: Option<nat>)
      requires FieldOk(heap.Value(), ptr, d, arena)
      modifies heap
      ensures heap.Value() == DestroyOn(old(heap.Value()), ptr, d, arena)
    {
      if arena.None? {
        if !IsDefault(d) {
          heap.Free(ptr);
        }
      }
    }

    /** ClearToEmpty for an empty default, ClearToDefault for any other: the string is kept, its text replaced. */
    method Clear(heap: StringHeap, d: Ref, text: string, ghost arena: Option<nat>)
      requires FieldOk(heap.Value(), ptr, d, arena)
      modifies heap
      ensures heap.Value() == ClearOn(old(heap.Value()), ptr, d, text)
    {
      if !IsDefault(d) {
        heap.Assign(ptr, text);
      }
    }

    /** InternalSwap */
    method Swap(other: ArenaStringPtr)
      modifies this, other
      ensures ptr == old(other.ptr) && other.ptr == old(ptr)
    {
      var p := ptr;
      ptr := other.ptr;
      other.ptr := p;
    }
  }
}
