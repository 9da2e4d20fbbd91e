/**
 Lifecycle ids in the arena protocol: threads reserve batches of 256 even ids from a shared
 counter, and no id is ever handed out twice, whatever the interleaving.
 */
module LifecycleIds {
  import opened Common
  import opened ArenaProtocol

  // ----- arithmetic of ids -----

  /** The id after `id` is in the same batch unless it starts the next one. */
  lemma NextInBatch(id: nat)
    requires id % DELTA == 0
    ensures (id + DELTA) % BATCH != 0 ==> (id + DELTA) / BATCH == id / BATCH
  {
    Divided(id);
    EvenRemainder(id, id / BATCH, id % BATCH);
    NextQuotient(id, id / BATCH, id % BATCH);
  }

  lemma Divided(id: nat)
    ensures id == BATCH * (id / BATCH) + id % BATCH && id % BATCH < BATCH
  {
  }

  lemma EvenRemainder(id: nat, q: nat, r: nat)
    requires id % DELTA == 0 && id == BATCH * q + r && r < BATCH
    ensures r <= BATCH - DELTA
  {
    assert id == 2 * (id / 2);
    assert r == 2 * (id / 2 - 256 * q);
  }

  lemma NextQuotient(id: nat, q: nat, r: nat)
    requires id == BATCH * q + r && r <= BATCH - DELTA
    ensures (id + DELTA) % BATCH != 0 ==> (id + DELTA) / BATCH == q
  {
    if r < BATCH - DELTA {
      QuotientIs(id + DELTA, q, r + DELTA);
    } else {
      QuotientIs(id + DELTA, q + 1, 0);
    }
  }

  lemma NextEven(id: nat)
    requires id % DELTA == 0
    ensures (id + DELTA) % DELTA == 0
  {
  }

  /** After the last id of 64 bits comes 0, which starts no batch of its own. */
  lemma NextWrapped(id: nat)
    requires id + DELTA <= TWO_TO_64
    ensures (id + DELTA) % TWO_TO_64 == if id + DELTA == TWO_TO_64 then 0 else id + DELTA
    ensures TWO_TO_64 % BATCH == 0
  {
    if id + DELTA < TWO_TO_64 { NoWrap(id + DELTA); }
  }

  lemma QuotientIs(n: nat, q: nat, r: nat)
    requires n == BATCH * q + r && r < BATCH
    ensures n / BATCH == q && n % BATCH == r
  {
  }

  /** Below the last batch nothing wraps around at 64 bits. */
  lemma NoWrap(n: nat)
    requires n < TWO_TO_64
    ensures n % TWO_TO_64 == n
  {
  }

  lemma BatchStart(generator: nat)
    requires generator < BATCHES
    ensures generator * BATCH + BATCH <= TWO_TO_64
    ensures (generator * BATCH) % DELTA == 0 && (generator * BATCH) / BATCH == generator
  {
    QuotientIs(generator * BATCH, generator, 0);
  }

  // ----- lifecycle ids -----

  /** The thread still has ids left in the batch it reserved. */
  predicate Active(c: ThreadCache) {
    c.nextLifecycleId % BATCH != 0
  }

  ghost predicate BatchOk(s: State, t: Thread)
    requires t in s.caches
  {
    var next := s.caches[t].nextLifecycleId;
    && next % DELTA == 0
    && (Active(s.caches[t]) ==> next / BATCH < s.generator)
    && (s.caches[t].lastLifecycleIdSeen == NEVER_SEEN || s.caches[t].lastLifecycleIdSeen in s.handedOut)
  }

  ghost predicate BatchesDisjoint(s: State, t: Thread, u: Thread)
    requires t in s.caches && u in s.caches
  {
    t != u && Active(s.caches[t]) && Active(s.caches[u]) ==>
      s.caches[t].nextLifecycleId / BATCH != s.caches[u].nextLifecycleId / BATCH
  }

  /** An id that was handed out is even and lies below everything that can still be handed out. */
  ghost predicate Spent(s: State, id: nat) {
    && id % DELTA == 0 && id / BATCH < s.generator
    && forall t :: t in s.caches ==> SpentFor(s.caches[t], id)
  }

  predicate SpentFor(c: ThreadCache, id: nat) {
    Active(c) && c.nextLifecycleId / BATCH == id / BATCH ==> id < c.nextLifecycleId
  }

  ghost predicate NoRepeats<T>(l: seq<T>) {
    forall i, j :: 0 <= i < j < |l| ==> l[i] != l[j]
  }

  ghost predicate LivesHandedOut(s: State) {
    forall a :: a in s.arenas ==> LifeCycleId(s.arenas[a].tagAndId) in s.handedOut
  }

  ghost predicate LivesDistinct(s: State) {
    forall a, b :: a in s.arenas && b in s.arenas && a != b ==>
      LifeCycleId(s.arenas[a].tagAndId) != LifeCycleId(s.arenas[b].tagAndId)
  }

  ghost predicate IdsOk(s: State) {
    && s.pcs.Keys == s.caches.Keys
    && (forall t :: t in s.caches ==> BatchOk(s, t))
    && (forall t, u :: t in s.caches && u in s.caches ==> BatchesDisjoint(s, t, u))
    && (forall i :: 0 <= i < |s.handedOut| ==> Spent(s, s.handedOut[i]))
    && NoRepeats(s.handedOut)
    && LivesHandedOut(s)
    && LivesDistinct(s)
  }

  /** The id that Init takes is even, below the sentinel, and was never handed out before, up to the last id of 64
      bits. */
  lemma TakenIdIsFresh(s: State, act: Action)
    requires IdsOk(s) && act.InitArena? && Enabled(s, act) && Apply(s, act).generator <= BATCHES
    ensures var id := TakenId(s, act.t);
            && id % DELTA == 0 && id + DELTA <= TWO_TO_64 && id !in s.handedOut
            && id / BATCH < Apply(s, act).generator
            && (s.caches[act.t].nextLifecycleId % BATCH == 0 ==> id == s.generator * BATCH)
            && LifeCycleId(TaggedId(id, act.record)) == id
  {
    var t := act.t;
    var id := TakenId(s, t);
    assert BatchOk(s, t);
    if Active(s.caches[t]) {
      NextBelow(id, s.generator);
    } else {
      BatchStart(s.generator);
      NoWrap(s.generator * BATCH);
    }
    forall i | 0 <= i < |s.handedOut|
      ensures s.handedOut[i] != id
    {
      assert Spent(s, s.handedOut[i]) && SpentFor(s.caches[t], s.handedOut[i]);
    }
  }

  lemma NextBelow(id: nat, generator: nat)
    requires id / BATCH < generator <= BATCHES && id % DELTA == 0
    ensures id + DELTA <= TWO_TO_64
  {
    Divided(id);
    EvenRemainder(id, id / BATCH, id % BATCH);
    assert id <= BATCH * (generator - 1) + BATCH - DELTA;
  }

  /** What the steps other than Init can do to the ids: nothing new is handed out, and a thread only
      remembers the id of an arena that exists. */
  ghost predicate SameIds(s: State, s': State) {
    && s'.generator == s.generator && s'.handedOut == s.handedOut
    && s'.pcs.Keys == s.pcs.Keys && s'.caches.Keys == s.caches.Keys
    && (forall u :: u in s.caches ==> s'.caches[u].nextLifecycleId == s.caches[u].nextLifecycleId)
    && (forall u :: u in s.caches ==>
          s'.caches[u].lastLifecycleIdSeen == s.caches[u].lastLifecycleIdSeen ||
          s'.caches[u].lastLifecycleIdSeen in s.handedOut)
    && (forall a :: a in s'.arenas ==> a in s.arenas && s'.arenas[a].tagAndId == s.arenas[a].tagAndId)
  }

  lemma StepSameIds(s: State, act: Action)
    requires s.pcs.Keys == s.caches.Keys && LivesHandedOut(s)
    requires Enabled(s, act) && !act.InitArena?
    ensures SameIds(s, Apply(s, act))
  {
    var t := act.t;
    match act
    case DestroyArena(_, a) =>
    case LoadHint(_, a) =>
    case HintAnswers(_) =>
    case HintMisses(_) =>
    case EnterFallback(_, a) =>
    case BeginSearch(_) =>
    case SearchStep(_) =>
    case Allocate(_, address, garbage) =>
    case LoadHead(_) =>
    case SetNext(_) =>
    case CompareExchange(_, spurious) =>
    case CacheSerial(_) =>
    case CacheId(_) => assert LifeCycleId(s.arenas[s.pcs[t].arena].tagAndId) in s.handedOut;
    case StoreHint(_) =>
  }

  lemma SameIdsKeeps(s: State, s': State)
    requires IdsOk(s) && SameIds(s, s')
    ensures IdsOk(s')
  {
    forall u | u in s'.caches
      ensures BatchOk(s', u)
    {
      assert BatchOk(s, u);
    }
    forall u, v | u in s'.caches && v in s'.caches
      ensures BatchesDisjoint(s', u, v)
    {
      assert BatchesDisjoint(s, u, v);
    }
    forall i | 0 <= i < |s'.handedOut|
      ensures Spent(s', s'.handedOut[i])
    {
      assert Spent(s, s.handedOut[i]);
    }
  }

  /** What Init does to the ids: thread `t` takes `id`, and arena `a` starts a lifetime with it. */
  ghost predicate TakesId(s: State, s': State, t: Thread, a: ArenaRef, id: nat) {
    && t in s.caches && s'.handedOut == s.handedOut + [id]
    && s'.pcs.Keys == s.pcs.Keys && s'.caches.Keys == s.caches.Keys
    && s'.generator == (if Active(s.caches[t]) then s.generator else s.generator + 1)
    && id == (if Active(s.caches[t]) then s.caches[t].nextLifecycleId else s.generator * BATCH)
    && id % DELTA == 0 && id !in s.handedOut
    && s'.caches[t].nextLifecycleId == (id + DELTA) % TWO_TO_64 && id + DELTA <= TWO_TO_64
    && (s'.caches[t].lastLifecycleIdSeen == s.caches[t].lastLifecycleIdSeen || s'.caches[t].lastLifecycleIdSeen == id)
    && (forall u :: u in s.caches && u != t ==> s'.caches[u] == s.caches[u])
    && a in s'.arenas && LifeCycleId(s'.arenas[a].tagAndId) == id
    && (forall b :: b in s'.arenas && b != a ==> b in s.arenas && s'.arenas[b] == s.arenas[b])
  }

  lemma InitTakesId(s: State, act: Action)
    requires IdsOk(s) && act.InitArena? && Enabled(s, act) && Apply(s, act).generator <= BATCHES
    ensures TakesId(s, Apply(s, act), act.t, act.a, TakenId(s, act.t))
  {
    hide IdsOk, LifeCycleId;
    TakenIdIsFresh(s, act);
  }

  lemma TakesIdKeepsBatch(s: State, s': State, t: Thread, a: ArenaRef, id: nat, u: Thread)
    requires TakesId(s, s', t, a, id) && u in s.caches && BatchOk(s, u) && BatchOk(s, t)
    ensures BatchOk(s', u)
  {
    assert id in s'.handedOut by { assert s'.handedOut[|s.handedOut|] == id; }
    if u == t {
      SameBatch(s.caches[t], s'.caches[t], id, s.generator);
    } else {
      assert s'.caches[u] == s.caches[u] && s'.generator >= s.generator;
    }
  }

  lemma TakesIdKeepsDisjoint(s: State, s': State, t: Thread, a: ArenaRef, id: nat, u: Thread, v: Thread)
    requires IdsOk(s) && TakesId(s, s', t, a, id) && u in s.caches && v in s.caches
    ensures BatchesDisjoint(s', u, v)
  {
    assert BatchesDisjoint(s, u, v) && BatchOk(s, u) && BatchOk(s, v);
    StillDisjoint(s, s', t, a, id, u, v);
  }

  lemma TakesIdKeepsLives(s: State, s': State, t: Thread, a: ArenaRef, id: nat)
    requires TakesId(s, s', t, a, id) && LivesHandedOut(s)
    ensures LivesHandedOut(s')
    ensures forall b :: b in s'.arenas && b != a ==> LifeCycleId(s'.arenas[b].tagAndId) != id
  {
    assert id in s'.handedOut by { assert s'.handedOut[|s.handedOut|] == id; }
    forall b | b in s'.arenas && b != a
      ensures LifeCycleId(s'.arenas[b].tagAndId) in s'.handedOut
      ensures LifeCycleId(s'.arenas[b].tagAndId) != id
    {
      assert LifeCycleId(s.arenas[b].tagAndId) in s.handedOut;
    }
  }

  lemma TakesIdKeeps(s: State, s': State, t: Thread, a: ArenaRef, id: nat)
    requires IdsOk(s) && TakesId(s, s', t, a, id)
    ensures IdsOk(s')
  {
    forall u | u in s'.caches
      ensures BatchOk(s', u)
    {
      TakesIdKeepsBatch(s, s', t, a, id, u);
    }
    forall u, v | u in s'.caches && v in s'.caches
      ensures BatchesDisjoint(s', u, v)
    {
      TakesIdKeepsDisjoint(s, s', t, a, id, u, v);
    }
    forall i | 0 <= i < |s'.handedOut|
      ensures Spent(s', s'.handedOut[i])
    {
      StillSpent(s, s', t, a, id, i);
    }
    TakesIdKeepsLives(s, s', t, a, id);
  }

  lemma StillDisjoint(s: State, s': State, t: Thread, a: ArenaRef, id: nat, u: Thread, v: Thread)
    requires TakesId(s, s', t, a, id) && u in s.caches && v in s.caches
    requires BatchesDisjoint(s, u, v) && BatchOk(s, u) && BatchOk(s, v)
    ensures BatchesDisjoint(s', u, v)
  {
    if u == t { SameBatch(s.caches[t], s'.caches[t], id, s.generator); }
    if v == t { SameBatch(s.caches[t], s'.caches[t], id, s.generator); }
  }

  lemma SameBatch(c: ThreadCache, c': ThreadCache, id: nat, generator: nat)
    requires c'.nextLifecycleId == (id + DELTA) % TWO_TO_64 && id + DELTA <= TWO_TO_64 && id % DELTA == 0
    requires id == (if Active(c) then c.nextLifecycleId else generator * BATCH)
    ensures Active(c') ==> c'.nextLifecycleId / BATCH == if Active(c) then c.nextLifecycleId / BATCH else generator
    ensures c'.nextLifecycleId % DELTA == 0
  {
    NextWrapped(id);
    NextEven(id);
    NextInBatch(id);
    if !Active(c) { QuotientIs(id, generator, 0); }
  }

  lemma StillSpent(s: State, s': State, t: Thread, a: ArenaRef, id: nat, i: nat)
    requires IdsOk(s) && TakesId(s, s', t, a, id) && i < |s'.handedOut|
    ensures Spent(s', s'.handedOut[i])
  {
    var x := s'.handedOut[i];
    assert BatchOk(s, t);
    if i < |s.handedOut| {
      assert Spent(s, s.handedOut[i]);
      forall u | u in s'.caches
        ensures SpentFor(s'.caches[u], x)
      {
        assert SpentFor(s.caches[u], x) && SpentFor(s.caches[t], x);
        if u == t { NextStillAbove(s.caches[t], s'.caches[t], id, x, s.generator); }
      }
    } else {
      forall u | u in s'.caches
        ensures SpentFor(s'.caches[u], id)
      {
        assert BatchOk(s, u) && BatchesDisjoint(s, t, u);
      }
    }
  }

  /** Moving on within a batch, or to a batch that nobody had, keeps what was spent below. */
  lemma NextStillAbove(c: ThreadCache, c': ThreadCache, id: nat, x: nat, generator: nat)
    requires SpentFor(c, x) && x / BATCH < generator
    requires id == (if Active(c) then c.nextLifecycleId else generator * BATCH)
    requires c'.nextLifecycleId == (id + DELTA) % TWO_TO_64 && id + DELTA <= TWO_TO_64 && id % DELTA == 0
    ensures SpentFor(c', x)
  {
    NextWrapped(id);
    NextInBatch(id);
    if !Active(c) { QuotientIs(id, generator, 0); }
  }

  lemma StepKeepsIds(s: State, act: Action)
    requires IdsOk(s) && Enabled(s, act) && Apply(s, act).generator <= BATCHES
    ensures IdsOk(Apply(s, act))
  {
    if act.InitArena? {
      InitTakesId(s, act);
      TakesIdKeeps(s, Apply(s, act), act.t, act.a, TakenId(s, act.t));
    } else {
      StepSameIds(s, act);
      SameIdsKeeps(s, Apply(s, act));
    }
  }
}
