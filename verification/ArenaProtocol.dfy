/**
 The concurrent part of ThreadSafeArena as a state machine: threads that share arenas take
 one step at a time, in any order, with sequentially consistent memory. A step is one access to
 shared memory; the writes a thread makes to its own cache are steps of their own. A SerialArena is
 its address; addresses are reused after an arena is reset or destroyed.
 */
module ArenaProtocol {
  import opened Common

  type Thread = nat
  type ArenaRef = nat
  type Serial = nat

  /** kPerThreadIds * kDelta: the distance between the batches of ids. */
  const BATCH: nat := 512
  const DELTA: nat := 2
  /** static_cast<LifecycleIdAtomic>(-1), the id a new thread cache holds. */
  const NEVER_SEEN: nat := TWO_TO_64 - 1
  /** The number of batches in 64 bits. */
  const BATCHES: nat := 0x80_0000_0000_0000

  datatype ThreadCache = ThreadCache(nextLifecycleId: nat, lastLifecycleIdSeen: nat, lastSerialArena: Option<Serial>)

  datatype SerialArena = SerialArena(owner: Thread, next: Option<Serial>)

  datatype Arena = Arena(tagAndId: nat, threads: Option<Serial>, hint: Option<Serial>)

  /** Where a thread is in GetSerialArenaFast, GetSerialArenaFallback and CacheSerialArena. */
  datatype Pc =
    | Idle
    | HintLoaded(arena: ArenaRef, hint: Option<Serial>)
    | Fallback(arena: ArenaRef)
    | Searching(arena: ArenaRef, cursor: Option<Serial>)
    | Allocated(arena: ArenaRef, serial: Serial)
    | HeadLoaded(arena: ArenaRef, serial: Serial, head: Option<Serial>)
    | NextSet(arena: ArenaRef, serial: Serial, head: Option<Serial>)
    | Found(arena: ArenaRef, serial: Serial)
    | SerialCached(arena: ArenaRef, serial: Serial)
    | IdCached(arena: ArenaRef, serial: Serial)

  /** `generator` is lifecycle_id_generator_. Two history variables follow what happened: `published`
      holds, newest first, the serial arenas whose push succeeded in the arena's current lifetime, and
      `handedOut` the lifecycle ids that Init gave out. No step reads them. */
  datatype State = State(
    generator: nat,
    caches: map<Thread, ThreadCache>,
    pcs: map<Thread, Pc>,
    arenas: map<ArenaRef, Arena>,
    serials: map<Serial, SerialArena>,
    published: map<ArenaRef, seq<Serial>>,
    handedOut: seq<nat>)

  datatype Action =
    | InitArena(t: Thread, a: ArenaRef, record: bool, initial: Option<Serial>)
    | DestroyArena(t: Thread, a: ArenaRef)
    | LoadHint(t: Thread, a: ArenaRef)
    | HintAnswers(t: Thread)
    | HintMisses(t: Thread)
    | EnterFallback(t: Thread, a: ArenaRef)
    | BeginSearch(t: Thread)
    | SearchStep(t: Thread)
    | Allocate(t: Thread, address: Serial, garbage: Option<Serial>)
    | LoadHead(t: Thread)
    | SetNext(t: Thread)
    | CompareExchange(t: Thread, spurious: bool)
    | CacheSerial(t: Thread)
    | CacheId(t: Thread)
    | StoreHint(t: Thread)

  predicate InArena(pc: Pc, a: ArenaRef) {
    !pc.Idle? && pc.arena == a
  }

  /** Resetting or destroying an arena must be synchronised by its user: no thread is inside it. */
  predicate Quiescent(s: State, a: ArenaRef) {
    forall u :: u in s.pcs ==> !InArena(s.pcs[u], a)
  }

  function SerialsOf(s: State, a: ArenaRef): seq<Serial> {
    if a in s.published then s.published[a] else []
  }

  /** The serial arenas that survive the release of arena `a`. */
  function WithoutArena(s: State, a: ArenaRef): map<Serial, SerialArena> {
    map x | x in s.serials && x !in SerialsOf(s, a) :: s.serials[x]
  }

  /** LifeCycleId(): the tag bit masked off. */
  function LifeCycleId(tagAndId: nat): nat {
    tagAndId - tagAndId % 2
  }

  /** The id Init takes: the next of the thread's batch, or the first of a new batch. */
  function TakenId(s: State, t: Thread): nat
    requires t in s.caches
  {
    var id := s.caches[t].nextLifecycleId;
    if id % BATCH == 0 then (s.generator * BATCH) % TWO_TO_64 else id
  }

  function TaggedId(id: nat, record: bool): nat {
    if record && id % 2 == 0 then id + 1 else id
  }

  predicate Enabled(s: State, act: Action) {
    act.t in s.pcs && act.t in s.caches &&
    var pc := s.pcs[act.t];
    (!pc.Idle? ==> pc.arena in s.arenas) &&
    match act
    case InitArena(t, a, record, initial) =>
      pc.Idle? && Quiescent(s, a) && (initial.Some? ==> initial.value !in WithoutArena(s, a))
    case DestroyArena(t, a) => pc.Idle? && a in s.arenas && Quiescent(s, a)
    case LoadHint(t, a) => pc.Idle? && a in s.arenas
    case HintAnswers(t) => pc.HintLoaded? && pc.hint.Some? && pc.hint.value in s.serials
      && s.serials[pc.hint.value].owner == t
    case HintMisses(t) =>
      pc.HintLoaded? && (pc.hint.None? || (pc.hint.value in s.serials && s.serials[pc.hint.value].owner != t))
    case EnterFallback(t, a) => pc.Idle? && a in s.arenas
    case BeginSearch(t) => pc.Fallback?
    case SearchStep(t) => pc.Searching? && pc.cursor.Some? && pc.cursor.value in s.serials
    case Allocate(t, address, garbage) => pc.Searching? && pc.cursor.None? && address !in s.serials
    case LoadHead(t) => pc.Allocated?
    case SetNext(t) => pc.HeadLoaded? && pc.serial in s.serials
    case CompareExchange(t, spurious) => pc.NextSet? && pc.arena in s.published
    case CacheSerial(t) => pc.Found?
    case CacheId(t) => pc.SerialCached?
    case StoreHint(t) => pc.IdCached?
  }

  function Goto(s: State, t: Thread, pc: Pc): State {
    s.(pcs := s.pcs[t := pc])
  }

  function Apply(s: State, act: Action): State
    requires Enabled(s, act)
  {
    var t := act.t;
    var pc := s.pcs[t];
    match act
    case InitArena(_, a, record, initial) =>
      var id := TakenId(s, t);
      var cache := s.caches[t].(nextLifecycleId := (id + DELTA) % TWO_TO_64);
      var tag := TaggedId(id, record);
      s.(generator := if s.caches[t].nextLifecycleId % BATCH == 0 then s.generator + 1 else s.generator,
         caches := s.caches[t := if initial.None? then cache
                                 else cache.(lastSerialArena := initial, lastLifecycleIdSeen := LifeCycleId(tag))],
         arenas := s.arenas[a := Arena(tag, initial, initial)],
         serials := if initial.None? then WithoutArena(s, a)
                    else WithoutArena(s, a)[initial.value := SerialArena(t, None)],
         published := s.published[a := if initial.None? then [] else [initial.value]],
         handedOut := s.handedOut + [id])
    case DestroyArena(_, a) =>
      s.(arenas := s.arenas - {a}, serials := WithoutArena(s, a), published := s.published - {a})
    case LoadHint(_, a) => Goto(s, t, HintLoaded(a, s.arenas[a].hint))
    case HintAnswers(_) => Goto(s, t, Idle)
    case HintMisses(_) => Goto(s, t, Fallback(pc.arena))
    case EnterFallback(_, a) => Goto(s, t, Fallback(a))
    case BeginSearch(_) => Goto(s, t, Searching(pc.arena, s.arenas[pc.arena].threads))
    case SearchStep(_) =>
      if s.serials[pc.cursor.value].owner == t then Goto(s, t, Found(pc.arena, pc.cursor.value))
      else Goto(s, t, Searching(pc.arena, s.serials[pc.cursor.value].next))
    case Allocate(_, address, garbage) =>
      Goto(s, t, Allocated(pc.arena, address)).(serials := s.serials[address := SerialArena(t, garbage)])
    case LoadHead(_) => Goto(s, t, HeadLoaded(pc.arena, pc.serial, s.arenas[pc.arena].threads))
    case SetNext(_) =>
      Goto(s, t, NextSet(pc.arena, pc.serial, pc.head)).(
        serials := s.serials[pc.serial := s.serials[pc.serial].(next := pc.head)])
    case CompareExchange(_, spurious) =>
      var arena := s.arenas[pc.arena];
      if arena.threads == pc.head && !spurious then
        Goto(s, t, Found(pc.arena, pc.serial)).(
          arenas := s.arenas[pc.arena := arena.(threads := Some(pc.serial))],
          published := s.published[pc.arena := [pc.serial] + s.published[pc.arena]])
      else
        Goto(s, t, HeadLoaded(pc.arena, pc.serial, arena.threads))
    case CacheSerial(_) =>
      Goto(s, t, SerialCached(pc.arena, pc.serial)).(
        caches := s.caches[t := s.caches[t].(lastSerialArena := Some(pc.serial))])
    case CacheId(_) =>
      Goto(s, t, IdCached(pc.arena, pc.serial)).(
        caches := s.caches[t := s.caches[t].(lastLifecycleIdSeen := LifeCycleId(s.arenas[pc.arena].tagAndId))])
    case StoreHint(_) =>
      Goto(s, t, Idle).(arenas := s.arenas[pc.arena := s.arenas[pc.arena].(hint := Some(pc.serial))])
  }

  predicate Initial(s: State) {
    && s.generator == 0 && s.arenas == map[] && s.serials == map[] && s.published == map[] && s.handedOut == []
    && s.pcs.Keys == s.caches.Keys
    && (forall t :: t in s.pcs ==> s.pcs[t] == Idle)
    && (forall t :: t in s.caches ==> s.caches[t] == ThreadCache(0, NEVER_SEEN, None))
  }

  /** A run: the states it goes through, each by one enabled action. */
  ghost predicate IsRun(states: seq<State>, acts: seq<Action>) {
    && |states| == |acts| + 1 && Initial(states[0])
    && forall i :: 0 <= i < |acts| ==> StepAt(states, acts, i)
  }

  ghost predicate StepAt(states: seq<State>, acts: seq<Action>, i: nat)
    requires i < |acts| && |states| == |acts| + 1
  {
    Enabled(states[i], acts[i]) && states[i + 1] == Apply(states[i], acts[i])
  }
}
