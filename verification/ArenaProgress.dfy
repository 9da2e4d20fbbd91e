/**
 What the lookups achieve: a serial arena that was found or made is found again through the hint and the thread
 cache, a new one is made only for a thread that has none, and a thread that is left alone gets its answer.
 */
module ArenaProgress {
  import opened Common
  import opened ArenaProtocol
  import opened LifecycleIds
  import opened ArenaSafety

  // ----- from a found serial arena back to the caller -----

  /** Thread t is on its way back from the fallback with serial arena x, and has cached what it should have by then. */
  ghost predicate Returning(s: State, t: Thread, a: ArenaRef, x: Serial, tag: nat) {
    && t in s.pcs && t in s.caches && a in s.arenas && s.arenas[a].tagAndId == tag
    && match s.pcs[t]
       case Found(b, y) => b == a && y == x
       case SerialCached(b, y) => b == a && y == x && s.caches[t].lastSerialArena == Some(x)
       case IdCached(b, y) => b == a && y == x && Remembers(s, t, LifeCycleId(tag), x)
       case _ => false
  }

  /** Asked with this lifecycle id, the thread cache answers with x. */
  predicate Remembers(s: State, t: Thread, lifecycleId: nat, x: Serial)
    requires t in s.caches
  {
    FromThreadCache(s, t, lifecycleId) == Some(Some(x))
  }

  /** The whole of CacheSerialArena has been done for x. */
  ghost predicate Cached(s: State, t: Thread, a: ArenaRef, x: Serial, tag: nat) {
    && t in s.caches && a in s.arenas && s.arenas[a].tagAndId == tag
    && s.arenas[a].hint == Some(x) && Remembers(s, t, LifeCycleId(tag), x)
  }

  lemma ReturnStep(s: State, act: Action, t: Thread, a: ArenaRef, x: Serial, tag: nat)
    requires Enabled(s, act) && Returning(s, t, a, x, tag)
    ensures var s' := Apply(s, act);
            Returning(s', t, a, x, tag) || (t in s'.pcs && s'.pcs[t] == Idle && Cached(s', t, a, x, tag))
  {
    assert InArena(s.pcs[t], a);
  }

  /** Once the fallback has found or made x, nobody can stop the thread from caching it, as its serial arena for this
      arena's lifetime and as the hint of the arena: so it is when the thread is back. */
  lemma {:induction false} FallbackCaches(states: seq<State>, acts: seq<Action>, i: nat, j: nat,
                                          t: Thread, a: ArenaRef, x: Serial)
    requires IsRun(states, acts) && i < j < |states| && t in states[i].pcs && states[i].pcs[t] == Found(a, x)
    requires forall k :: i <= k < j ==> t in states[k].pcs && states[k].pcs[t] != Idle
    requires t in states[i].caches && a in states[i].arenas && t in states[j].pcs
    ensures Returning(states[j], t, a, x, states[i].arenas[a].tagAndId)
            || (states[j].pcs[t] == Idle && Cached(states[j], t, a, x, states[i].arenas[a].tagAndId))
    decreases j
  {
    var tag := states[i].arenas[a].tagAndId;
    assert Returning(states[i], t, a, x, tag);
    assert StepAt(states, acts, j - 1);
    if i < j - 1 { FallbackCaches(states, acts, i, j - 1, t, a, x); }
    ReturnStep(states[j - 1], acts[j - 1], t, a, x, tag);
  }

  /** A new lifetime starts with no serial arena, or with one in the first block, which is cached and hinted at once:
      the thread that started it finds it without a fallback. */
  lemma NewLifetime(s: State, act: Action)
    requires Enabled(s, act) && act.InitArena?
    ensures var s', t, a := Apply(s, act), act.t, act.a;
            && t in s'.caches && a in s'.arenas && a in s'.published
            && (act.initial == None ==>
                  s'.published[a] == [] && s'.arenas[a].hint == None && s'.arenas[a].threads == None)
            && (act.initial.Some? ==>
                  && s'.published[a] == [act.initial.value]
                  && Cached(s', t, a, act.initial.value, s'.arenas[a].tagAndId)
                  && Enabled(s', LoadHint(t, a)) && Enabled(Apply(s', LoadHint(t, a)), HintAnswers(t)))
  {
  }

  // ----- as long as nobody interferes -----

  /** Some thread completes a fallback on arena a: the hint will be its serial arena. */
  predicate StoresHint(s: State, act: Action, a: ArenaRef) {
    act.StoreHint? && act.t in s.pcs && !s.pcs[act.t].Idle? && s.pcs[act.t].arena == a
  }

  /** Thread t caches a serial arena, after a fallback or for a new arena with a first block. */
  predicate Caches(act: Action, t: Thread) {
    act.t == t && (act.CacheSerial? || act.CacheId? || (act.InitArena? && act.initial.Some?))
  }

  lemma HintStep(s: State, act: Action, a: ArenaRef)
    requires Enabled(s, act) && a in s.arenas && !EndsLifetime(act, a) && !StoresHint(s, act, a)
    ensures var s' := Apply(s, act);
            a in s'.arenas && s'.arenas[a].hint == s.arenas[a].hint && s'.arenas[a].tagAndId == s.arenas[a].tagAndId
  {
  }

  lemma CacheStep(s: State, act: Action, t: Thread)
    requires Enabled(s, act) && t in s.caches && !Caches(act, t)
    ensures var s' := Apply(s, act);
            t in s'.caches && s'.caches[t].lastLifecycleIdSeen == s.caches[t].lastLifecycleIdSeen
            && s'.caches[t].lastSerialArena == s.caches[t].lastSerialArena
  {
  }

  /** The hint and the tag of an arena stay until another fallback completes or the lifetime ends. */
  lemma {:induction false} HintStays(states: seq<State>, acts: seq<Action>, i: nat, n: nat, a: ArenaRef)
    requires IsRun(states, acts) && i <= n < |states| && a in states[i].arenas
    requires forall k :: i <= k < n ==> !EndsLifetime(acts[k], a) && !StoresHint(states[k], acts[k], a)
    ensures a in states[n].arenas && states[n].arenas[a].hint == states[i].arenas[a].hint
    ensures states[n].arenas[a].tagAndId == states[i].arenas[a].tagAndId
    decreases n
  {
    if i < n {
      HintStays(states, acts, i, n - 1, a);
      assert StepAt(states, acts, n - 1);
      HintStep(states[n - 1], acts[n - 1], a);
    }
  }

  /** What a thread remembers stays until it caches another serial arena. */
  lemma {:induction false} CacheStays(states: seq<State>, acts: seq<Action>, i: nat, n: nat, t: Thread)
    requires IsRun(states, acts) && i <= n < |states| && t in states[i].caches
    requires forall k :: i <= k < n ==> !Caches(acts[k], t)
    ensures t in states[n].caches
    ensures states[n].caches[t].lastLifecycleIdSeen == states[i].caches[t].lastLifecycleIdSeen
    ensures states[n].caches[t].lastSerialArena == states[i].caches[t].lastSerialArena
    decreases n
  {
    if i < n {
      CacheStays(states, acts, i, n - 1, t);
      assert StepAt(states, acts, n - 1);
      CacheStep(states[n - 1], acts[n - 1], t);
    }
  }

  lemma OwnedStep(s: State, act: Action, a: ArenaRef, x: Serial, t: Thread)
    requires Inv(s) && Enabled(s, act) && !EndsLifetime(act, a) && Owned(s, a, x, t)
    ensures Owned(Apply(s, act), a, x, t)
  {
    var s' := Apply(s, act);
    var i :| 0 <= i < |s.published[a]| && s.published[a][i] == x;
    if act.InitArena? || act.DestroyArena? {
      assert Apart(s, a, act.a);
      assert x !in SerialsOf(s, act.a);
      assert s'.published[a] == s.published[a];
    } else {
      OneStepGrows(s, act, a);
    }
  }

  lemma {:induction false} OwnedStays(states: seq<State>, acts: seq<Action>, i: nat, n: nat, a: ArenaRef, x: Serial,
                                      t: Thread)
    requires IsRun(states, acts) && i <= n < |states| && states[n].generator <= BATCHES && Owned(states[i], a, x, t)
    requires forall k :: i <= k < n ==> !EndsLifetime(acts[k], a)
    ensures Owned(states[n], a, x, t)
    decreases n
  {
    if i < n {
      assert StepAt(states, acts, n - 1);
      GeneratorGrows(states[n - 1], acts[n - 1]);
      OwnedStays(states, acts, i, n - 1, a, x, t);
      RunKeepsInv(states, acts, n - 1);
      OwnedStep(states[n - 1], acts[n - 1], a, x, t);
    }
  }

  /**
   A thread came back from a fallback on arena a with x. As long as the lifetime goes on, and nobody completes another
   fallback on a, its next lookup through the hint finds x, whatever else it has used in between.
   */
  lemma HintAnswersAgain(states: seq<State>, acts: seq<Action>, i: nat, j: nat, n: nat, t: Thread, a: ArenaRef,
                         x: Serial)
    requires IsRun(states, acts) && i < j <= n < |states| && states[n].generator <= BATCHES
    requires forall k :: i <= k <= j ==> t in states[k].pcs
    requires states[i].pcs[t] == Found(a, x) && states[j].pcs[t] == Idle
    requires forall k :: i <= k < j ==> states[k].pcs[t] != Idle
    requires forall k :: i <= k < n ==> !EndsLifetime(acts[k], a)
    requires forall k :: j <= k < n ==> !StoresHint(states[k], acts[k], a)
    requires t in states[n].pcs && states[n].pcs[t] == Idle
    ensures Enabled(states[n], LoadHint(t, a))
    ensures var loaded := Apply(states[n], LoadHint(t, a));
            loaded.pcs[t] == HintLoaded(a, Some(x)) && Enabled(loaded, HintAnswers(t))
  {
    GeneratorMonotone(states, acts, i, n);
    RunKeepsInv(states, acts, i);
    assert ThreadOk(states[i], t);
    FallbackCaches(states, acts, i, j, t, a, x);
    HintStays(states, acts, j, n, a);
    OwnedStays(states, acts, i, n, a, x, t);
    RunKeepsInv(states, acts, n);
  }

  lemma {:induction false} GeneratorMonotone(states: seq<State>, acts: seq<Action>, i: nat, n: nat)
    requires IsRun(states, acts) && i <= n < |states|
    ensures states[i].generator <= states[n].generator
    decreases n
  {
    if i < n {
      GeneratorMonotone(states, acts, i, n - 1);
      assert StepAt(states, acts, n - 1);
      GeneratorGrows(states[n - 1], acts[n - 1]);
    }
  }

  /** The same through the thread cache, asked with the masked id: as long as the lifetime goes on and the thread has
      cached nothing else. */
  lemma CacheAnswersAgain(states: seq<State>, acts: seq<Action>, i: nat, j: nat, n: nat, t: Thread, a: ArenaRef,
                          x: Serial)
    requires IsRun(states, acts) && i < j <= n < |states| && states[n].generator <= BATCHES
    requires forall k :: i <= k <= j ==> t in states[k].pcs
    requires states[i].pcs[t] == Found(a, x) && states[j].pcs[t] == Idle
    requires forall k :: i <= k < j ==> states[k].pcs[t] != Idle
    requires forall k :: i <= k < n ==> !EndsLifetime(acts[k], a)
    requires forall k :: j <= k < n ==> !Caches(acts[k], t)
    ensures t in states[n].caches && a in states[n].arenas
    ensures Remembers(states[n], t, LifeCycleId(states[n].arenas[a].tagAndId), x)
  {
    GeneratorMonotone(states, acts, i, n);
    RunKeepsInv(states, acts, i);
    assert ThreadOk(states[i], t);
    FallbackCaches(states, acts, i, j, t, a, x);
    CacheStays(states, acts, j, n, t);
    TagStays(states, acts, j, n, a);
  }

  lemma {:induction false} TagStays(states: seq<State>, acts: seq<Action>, i: nat, n: nat, a: ArenaRef)
    requires IsRun(states, acts) && i <= n < |states| && a in states[i].arenas
    requires forall k :: i <= k < n ==> !EndsLifetime(acts[k], a)
    ensures a in states[n].arenas && states[n].arenas[a].tagAndId == states[i].arenas[a].tagAndId
    decreases n
  {
    if i < n {
      TagStays(states, acts, i, n - 1, a);
      assert StepAt(states, acts, n - 1);
    }
  }

  // ----- new serial arenas -----

  /** In every reachable state a thread makes a serial arena only if the linear search finds none of its own. */
  lemma MakesOnlyIfNone(states: seq<State>, acts: seq<Action>, n: nat, act: Action)
    requires IsRun(states, acts) && n < |states| && states[n].generator <= BATCHES
    requires act.Allocate? && Enabled(states[n], act)
    ensures var s := states[n]; var a := s.pcs[act.t].arena;
            a in s.published && Search(s.serials, s.published[a], act.t) == None
  {
    var s := states[n];
    RunKeepsInv(states, acts, n);
    assert ThreadOk(s, act.t);
    var a := s.pcs[act.t].arena;
    var k :| SearchedTo(s, a, act.t, None, k);
    assert s.published[a][..k] == s.published[a];
    SearchFindsNone(s, s.published[a], act.t);
  }

  lemma {:induction false} SearchFindsNone(s: State, l: seq<Serial>, t: Thread)
    requires OwnsNone(s, l, t)
    ensures Search(s.serials, l, t) == None
  {
    if l != [] { SearchFindsNone(s, l[1..], t); }
  }

  /** The compare-and-swap publishes when the list is as the thread saw it, unless it fails for no reason. */
  lemma SwapPublishes(s: State, t: Thread)
    requires Enabled(s, CompareExchange(t, false)) && s.arenas[s.pcs[t].arena].threads == s.pcs[t].head
    ensures var s' := Apply(s, CompareExchange(t, false));
            var a, x := s.pcs[t].arena, s.pcs[t].serial;
            s'.pcs[t] == Found(a, x) && s'.published[a] == [x] + s.published[a] && s'.arenas[a].threads == Some(x)
  {
  }

  // ----- a thread left alone -----

  /** The next step of thread t, with a compare-and-swap that does not fail for no reason. */
  function Next(s: State, t: Thread, address: Serial): Action
    requires t in s.pcs && !s.pcs[t].Idle?
  {
    NextAction(s, t, address, None, false)
  }

  /** The address is free, or the thread will not need it any more. */
  predicate Free(s: State, t: Thread, address: Serial)
    requires t in s.pcs
  {
    var pc := s.pcs[t];
    address !in s.serials || !(pc.HintLoaded? || pc.Fallback? || pc.Searching?)
  }

  /** How many steps thread t still has to take, at most. */
  ghost predicate StepsLeft(s: State, t: Thread, r: nat)
    requires t in s.pcs
  {
    match s.pcs[t]
    case Idle => r == 0
    case HintLoaded(a, _) => a in s.published && r == |s.published[a]| + 10
    case Fallback(a) => a in s.published && r == |s.published[a]| + 9
    case Searching(a, cursor) =>
      exists k :: SearchedTo(s, a, t, cursor, k) && r == |s.published[a]| - k + 8
    case Allocated(_, _) => r == 6
    case HeadLoaded(a, _, head) => a in s.arenas && r == if s.arenas[a].threads == head then 5 else 7
    case NextSet(a, _, head) => a in s.arenas && r == if s.arenas[a].threads == head then 4 else 6
    case Found(_, _) => r == 3
    case SerialCached(_, _) => r == 2
    case IdCached(_, _) => r == 1
  }

  lemma NextIsEnabled(s: State, t: Thread, address: Serial)
    requires Inv(s) && t in s.pcs && !s.pcs[t].Idle? && Free(s, t, address)
    ensures Enabled(s, Next(s, t, address))
  {
    assert ThreadOk(s, t);
    var pc := s.pcs[t];
    assert ArenaOk(s, pc.arena);
    if pc.Searching? {
      var k :| SearchedTo(s, pc.arena, t, pc.cursor, k);
      if pc.cursor.Some? { assert pc.cursor.value == s.published[pc.arena][k]; }
    }
  }

  lemma SomeStepsLeft(s: State, t: Thread) returns (r: nat)
    requires Inv(s) && t in s.pcs
    ensures StepsLeft(s, t, r)
    ensures !s.pcs[t].Idle? ==> s.pcs[t].arena in s.published && r <= |s.published[s.pcs[t].arena]| + 10
  {
    assert ThreadOk(s, t);
    match s.pcs[t]
    case Idle => r := 0;
    case HintLoaded(a, _) => r := |s.published[a]| + 10;
    case Fallback(a) => r := |s.published[a]| + 9;
    case Searching(a, cursor) =>
      var k :| SearchedTo(s, a, t, cursor, k);
      r := |s.published[a]| - k + 8;
    case Allocated(_, _) => r := 6;
    case HeadLoaded(a, _, head) => r := if s.arenas[a].threads == head then 5 else 7;
    case NextSet(a, _, head) => r := if s.arenas[a].threads == head then 4 else 6;
    case Found(_, _) => r := 3;
    case SerialCached(_, _) => r := 2;
    case IdCached(_, _) => r := 1;
  }

  lemma SearchAdvances(s: State, t: Thread, a: ArenaRef, cursor: Option<Serial>, k: int)
    requires a in s.arenas && ArenaOk(s, a) && t in s.pcs && s.pcs[t] == Searching(a, cursor)
    requires SearchedTo(s, a, t, cursor, k) && cursor.Some? && Enabled(s, SearchStep(t))
    ensures var s' := Apply(s, SearchStep(t));
            s'.pcs[t] == Found(a, cursor.value)
            || (s'.pcs[t].Searching? && SearchedTo(s', a, t, s'.pcs[t].cursor, k + 1) && s'.pcs[t].arena == a)
  {
    var l := s.published[a];
    assert cursor.value == l[k];
    ChainAt(s.serials, s.arenas[a].threads, l, k);
    assert l[..k + 1] == l[..k] + [l[k]];
  }

  /** A step of thread t in a state where its next step is enabled. */
  ghost predicate Steps(s: State, s': State, t: Thread, address: Serial) {
    t in s.pcs && !s.pcs[t].Idle? && Enabled(s, Next(s, t, address)) && s' == Apply(s, Next(s, t, address))
  }

  lemma FewerBeforeSearch(s: State, s': State, t: Thread, address: Serial, r: nat) returns (r': nat)
    requires Steps(s, s', t, address) && StepsLeft(s, t, r) && Free(s, t, address)
    requires s.pcs[t].HintLoaded? || s.pcs[t].Fallback?
    requires s.pcs[t].arena in s.arenas && ArenaOk(s, s.pcs[t].arena)
    ensures t in s'.pcs && StepsLeft(s', t, r') && r' < r && Free(s', t, address)
  {
    var a := s.pcs[t].arena;
    if s.pcs[t].HintLoaded? {
      r' := if s'.pcs[t].Idle? then 0 else |s.published[a]| + 9;
    } else {
      FromTheHead(s, t, a);
      assert SearchedTo(s', a, t, s'.pcs[t].cursor, 0);
      r' := |s.published[a]| + 8;
    }
  }

  lemma FewerInSearch(s: State, s': State, t: Thread, address: Serial, r: nat) returns (r': nat)
    requires Steps(s, s', t, address) && StepsLeft(s, t, r) && Free(s, t, address) && s.pcs[t].Searching?
    requires s.pcs[t].arena in s.arenas && ArenaOk(s, s.pcs[t].arena)
    ensures t in s'.pcs && StepsLeft(s', t, r') && r' < r && Free(s', t, address)
  {
    var a, cursor := s.pcs[t].arena, s.pcs[t].cursor;
    var k :| SearchedTo(s, a, t, cursor, k) && r == |s.published[a]| - k + 8;
    if cursor.Some? {
      SearchAdvances(s, t, a, cursor, k);
      r' := if s'.pcs[t].Found? then 3 else |s.published[a]| - (k + 1) + 8;
    } else {
      r' := 6;
    }
  }

  lemma FewerAfterSearch(s: State, s': State, t: Thread, address: Serial, r: nat) returns (r': nat)
    requires Steps(s, s', t, address) && StepsLeft(s, t, r)
    requires !s.pcs[t].HintLoaded? && !s.pcs[t].Fallback? && !s.pcs[t].Searching?
    ensures t in s'.pcs && StepsLeft(s', t, r') && r' < r && Free(s', t, address)
  {
    r' := if s.pcs[t].NextSet? && r == 6 then 5 else r - 1;
  }

  lemma BusyIsOk(s: State, t: Thread)
    requires Inv(s) && t in s.pcs && !s.pcs[t].Idle?
    ensures ThreadOk(s, t) && s.pcs[t].arena in s.arenas && ArenaOk(s, s.pcs[t].arena)
  {
    assert ThreadOk(s, t);
  }

  lemma FewerStepsLeft(s: State, t: Thread, address: Serial, r: nat) returns (r': nat)
    requires Inv(s) && t in s.pcs && !s.pcs[t].Idle? && Free(s, t, address) && StepsLeft(s, t, r)
    ensures Enabled(s, Next(s, t, address))
    ensures var s' := Apply(s, Next(s, t, address));
            t in s'.pcs && StepsLeft(s', t, r') && r' < r && Free(s', t, address)
  {
    hide Inv, Enabled, Apply, StepsLeft, Next, ThreadOk, ArenaOk, Free;
    NextIsEnabled(s, t, address);
    BusyIsOk(s, t);
    var s' := Apply(s, Next(s, t, address));
    if s.pcs[t].HintLoaded? || s.pcs[t].Fallback? {
      r' := FewerBeforeSearch(s, s', t, address, r);
    } else if s.pcs[t].Searching? {
      r' := FewerInSearch(s, s', t, address, r);
    } else {
      r' := FewerAfterSearch(s, s', t, address, r);
    }
  }

  lemma FromTheHead(s: State, t: Thread, a: ArenaRef)
    requires a in s.arenas && ArenaOk(s, a)
    ensures SearchedTo(s, a, t, s.arenas[a].threads, 0)
  {
    assert s.published[a][0..] == s.published[a];
  }

  /** The state after thread t has taken up to r steps on its own, until it is back. */
  ghost function Alone(s: State, t: Thread, address: Serial, r: nat): State
    decreases r
  {
    if r == 0 || t !in s.pcs || s.pcs[t].Idle? || !Enabled(s, Next(s, t, address)) then s
    else Alone(Apply(s, Next(s, t, address)), t, address, r - 1)
  }

  /** The answer a thread gets in arena a: an own serial arena of this lifetime, which the linear search finds too. */
  ghost predicate Answered(s: State, t: Thread, a: ArenaRef) {
    t in s.pcs && s.pcs[t] == Idle && a in s.published && Search(s.serials, s.published[a], t).Some?
  }

  /** A busy thread is still in the same arena, or back with an answer. */
  lemma NextAnswers(s: State, s': State, t: Thread, address: Serial)
    requires Steps(s, s', t, address) && ThreadOk(s, t) && s.pcs[t].arena in s.arenas && ArenaOk(s, s.pcs[t].arena)
    ensures var a := s.pcs[t].arena;
            s'.generator == s.generator && t in s'.pcs
            && if s'.pcs[t].Idle? then Answered(s', t, a) else s'.pcs[t].arena == a
  {
    var pc := s.pcs[t];
    if pc.HintLoaded? && pc.hint.Some? && s.serials[pc.hint.value].owner == t {
      SearchFindsOwned(s.serials, s.published[pc.arena], t, pc.hint.value);
    }
    if pc.IdCached? { SearchFindsOwned(s.serials, s.published[pc.arena], t, pc.serial); }
  }

  lemma {:induction false} AloneFinishes(s: State, t: Thread, address: Serial, r: nat, n: nat)
    requires Inv(s) && s.generator <= BATCHES && t in s.pcs && !s.pcs[t].Idle?
    requires Free(s, t, address) && StepsLeft(s, t, r) && r <= n
    ensures Answered(Alone(s, t, address, n), t, s.pcs[t].arena)
    decreases r
  {
    hide Inv, Enabled, Apply, StepsLeft, Next, ThreadOk, ArenaOk, Free, Alone, Answered;
    var r' := FewerStepsLeft(s, t, address, r);
    BusyIsOk(s, t);
    var s' := Apply(s, Next(s, t, address));
    AloneUnfolds(s, t, address, n);
    NextAnswers(s, s', t, address);
    StepKeepsInv(s, Next(s, t, address));
    if s'.pcs[t].Idle? { AloneIsDone(s', t, address, n - 1); } else { AloneFinishes(s', t, address, r', n - 1); }
  }

  lemma AloneUnfolds(s: State, t: Thread, address: Serial, n: nat)
    requires 0 < n && t in s.pcs && !s.pcs[t].Idle? && Enabled(s, Next(s, t, address))
    ensures Alone(s, t, address, n) == Alone(Apply(s, Next(s, t, address)), t, address, n - 1)
  {
  }

  lemma AloneIsDone(s: State, t: Thread, address: Serial, n: nat)
    requires t in s.pcs && s.pcs[t].Idle?
    ensures Alone(s, t, address, n) == s
  {
  }

  /**
   From every reachable state, at whatever point a thread is and whatever others have done: if it is left alone, it is
   back with its answer after at most |published| + 10 steps of its own.
   */
  lemma AloneItIsAnswered(states: seq<State>, acts: seq<Action>, n: nat, t: Thread, address: Serial)
    requires IsRun(states, acts) && n < |states| && states[n].generator <= BATCHES
    requires t in states[n].pcs && !states[n].pcs[t].Idle? && address !in states[n].serials
    ensures var s, a := states[n], states[n].pcs[t].arena;
            a in s.published && Answered(Alone(s, t, address, |s.published[a]| + 10), t, a)
  {
    RunKeepsInv(states, acts, n);
    var r := SomeStepsLeft(states[n], t);
    AloneFinishes(states[n], t, address, r, |states[n].published[states[n].pcs[t].arena]| + 10);
  }
}
