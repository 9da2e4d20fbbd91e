/**
 Safety of the arena protocol over all interleavings: the lock-free push loses and duplicates
 nothing, and the thread cache and the hint agree with the linear search.
 */
module ArenaSafety {
  import opened Common
  import opened ArenaProtocol
  import opened LifecycleIds

  // ----- the list behind threads_ -----

  function HeadOf(l: seq<Serial>): Option<Serial> {
    if l == [] then None else Some(l[0])
  }

  /** Following next pointers from `head` visits exactly `l` and ends. */
  ghost predicate Chain(serials: map<Serial, SerialArena>, head: Option<Serial>, l: seq<Serial>)
    decreases |l|
  {
    if l == [] then head == None
    else head == Some(l[0]) && l[0] in serials && Chain(serials, serials[l[0]].next, l[1..])
  }

  lemma {:induction false} ChainFrame(m: map<Serial, SerialArena>, m': map<Serial, SerialArena>, head: Option<Serial>,
                                      l: seq<Serial>)
    requires Chain(m, head, l)
    requires forall x :: x in l ==> x in m && x in m' && m'[x] == m[x]
    ensures Chain(m', head, l)
    decreases |l|
  {
    if l != [] { ChainFrame(m, m', m[l[0]].next, l[1..]); }
  }

  lemma {:induction false} ChainAt(m: map<Serial, SerialArena>, head: Option<Serial>, l: seq<Serial>, k: nat)
    requires Chain(m, head, l) && k < |l|
    ensures l[k] in m && m[l[k]].next == HeadOf(l[k + 1..])
    decreases |l|
  {
    if k > 0 {
      ChainAt(m, m[l[0]].next, l[1..], k - 1);
      assert l[1..][k..] == l[k + 1..];
    }
  }

  ghost predicate OwnersDistinct(m: map<Serial, SerialArena>, l: seq<Serial>) {
    && (forall i :: 0 <= i < |l| ==> l[i] in m)
    && (forall i, j :: 0 <= i < j < |l| ==> m[l[i]].owner != m[l[j]].owner)
  }

  ghost predicate ArenaOk(s: State, a: ArenaRef)
    requires a in s.arenas
  {
    && a in s.published
    && Chain(s.serials, s.arenas[a].threads, s.published[a])
    && OwnersDistinct(s.serials, s.published[a])
    && (s.arenas[a].hint.Some? ==> s.arenas[a].hint.value in s.published[a])
  }

  /** Arenas do not share serial arenas. */
  ghost predicate Apart(s: State, a: ArenaRef, b: ArenaRef) {
    a in s.published && b in s.published && a != b ==>
      forall i, j :: 0 <= i < |s.published[a]| && 0 <= j < |s.published[b]| ==> s.published[a][i] != s.published[b][j]
  }

  // ----- what a thread relies on at each point -----

  /** The serial arena a thread has allocated but not yet published. */
  function Private(pc: Pc): Option<Serial> {
    if pc.Allocated? || pc.HeadLoaded? || pc.NextSet? then Some(pc.serial) else None
  }

  ghost predicate Owned(s: State, a: ArenaRef, x: Serial, t: Thread) {
    a in s.published && x in s.published[a] && x in s.serials && s.serials[x].owner == t
  }

  ghost predicate OwnsNone(s: State, l: seq<Serial>, t: Thread) {
    forall i :: 0 <= i < |l| ==> l[i] in s.serials && s.serials[l[i]].owner != t
  }

  /** The search has passed `k` serial arenas of the list, none of them its own. */
  ghost predicate SearchedTo(s: State, a: ArenaRef, t: Thread, cursor: Option<Serial>, k: int) {
    a in s.published && 0 <= k <= |s.published[a]| &&
    cursor == HeadOf(s.published[a][k..]) && OwnsNone(s, s.published[a][..k], t)
  }

  ghost predicate Unpublished(s: State, x: Serial) {
    x in s.serials && forall b :: b in s.published ==> x !in s.published[b]
  }

  ghost predicate ThreadOk(s: State, t: Thread)
    requires t in s.pcs
  {
    var pc := s.pcs[t];
    (!pc.Idle? ==> pc.arena in s.arenas && pc.arena in s.published) &&
    match pc
    case Idle => true
    case HintLoaded(a, hint) => hint.Some? ==> hint.value in s.published[a]
    case Fallback(a) => true
    case Searching(a, cursor) => exists k :: SearchedTo(s, a, t, cursor, k)
    case Allocated(a, x) => Unpublished(s, x) && s.serials[x].owner == t && OwnsNone(s, s.published[a], t)
    case HeadLoaded(a, x, head) => Unpublished(s, x) && s.serials[x].owner == t && OwnsNone(s, s.published[a], t)
    case NextSet(a, x, head) =>
      Unpublished(s, x) && s.serials[x] == SerialArena(t, head) && OwnsNone(s, s.published[a], t)
    case Found(a, x) => Owned(s, a, x, t)
    case SerialCached(a, x) => Owned(s, a, x, t) && t in s.caches && s.caches[t].lastSerialArena == Some(x)
    case IdCached(a, x) => Owned(s, a, x, t)
  }

  ghost predicate PrivatesDistinct(s: State, t: Thread, u: Thread)
    requires t in s.pcs && u in s.pcs
  {
    t != u && Private(s.pcs[t]).Some? ==> Private(s.pcs[t]) != Private(s.pcs[u])
  }

  /** A cache that remembers the current id of an arena points to this thread's serial arena in it.
      Between the two writes of CacheSerialArena the cache is not read. */
  ghost predicate CacheOk(s: State, t: Thread)
    requires t in s.caches && t in s.pcs
  {
    !s.pcs[t].SerialCached? ==>
      forall a :: a in s.arenas && s.caches[t].lastLifecycleIdSeen == LifeCycleId(s.arenas[a].tagAndId) ==>
        s.caches[t].lastSerialArena.Some? && Owned(s, a, s.caches[t].lastSerialArena.value, t)
  }

  ghost predicate Inv(s: State) {
    && IdsOk(s)
    && s.published.Keys == s.arenas.Keys
    && (forall a :: a in s.arenas ==> ArenaOk(s, a))
    && (forall a, b :: Apart(s, a, b))
    && (forall t :: t in s.pcs ==> ThreadOk(s, t) && CacheOk(s, t))
    && (forall t, u :: t in s.pcs && u in s.pcs ==> PrivatesDistinct(s, t, u))
  }

  // ----- steps that leave every published serial arena alone -----

  /** Thread `t` moved; lists, tags and published serial arenas are unchanged. */
  ghost predicate Frame(s: State, s': State, t: Thread) {
    && t in s.pcs && s'.pcs.Keys == s.pcs.Keys && s'.caches.Keys == s.caches.Keys
    && (forall u :: u in s.pcs && u != t ==> s'.pcs[u] == s.pcs[u])
    && (forall u :: u in s.caches && u != t ==> s'.caches[u] == s.caches[u])
    && s'.published == s.published && s'.arenas.Keys == s.arenas.Keys
    && (forall a :: a in s.arenas ==>
        s'.arenas[a].threads == s.arenas[a].threads && s'.arenas[a].tagAndId == s.arenas[a].tagAndId)
    && (forall a :: a in s.arenas && a in s.published && s'.arenas[a].hint != s.arenas[a].hint ==>
          s'.arenas[a].hint.Some? && s'.arenas[a].hint.value in s.published[a])
    && (forall x :: x in s.serials ==> x in s'.serials && s'.serials[x].owner == s.serials[x].owner)
    && (forall x :: x in s.serials && Private(s.pcs[t]) != Some(x) ==> s'.serials[x] == s.serials[x])
  }

  lemma FrameKeepsArena(s: State, s': State, t: Thread, a: ArenaRef)
    requires Frame(s, s', t) && ThreadOk(s, t) && a in s.arenas && ArenaOk(s, a)
    ensures ArenaOk(s', a)
  {
    var l := s.published[a];
    forall i | 0 <= i < |l|
      ensures l[i] in s.serials && l[i] in s'.serials && s'.serials[l[i]] == s.serials[l[i]]
    {
      assert l[i] in l;
    }
    ChainFrame(s.serials, s'.serials, s.arenas[a].threads, l);
  }

  lemma FrameKeepsOwnsNone(s: State, s': State, t: Thread, l: seq<Serial>, u: Thread)
    requires Frame(s, s', t) && OwnsNone(s, l, u)
    ensures OwnsNone(s', l, u)
  {
  }

  lemma FrameKeepsThread(s: State, s': State, t: Thread, u: Thread)
    requires Frame(s, s', t) && u in s.pcs && u != t
    requires ThreadOk(s, u) && PrivatesDistinct(s, u, t)
    ensures ThreadOk(s', u)
  {
    var pc := s.pcs[u];
    if pc.Searching? {
      var k :| SearchedTo(s, pc.arena, u, pc.cursor, k);
      FrameKeepsOwnsNone(s, s', t, s.published[pc.arena][..k], u);
      assert SearchedTo(s', pc.arena, u, pc.cursor, k);
    } else if Private(pc).Some? {
      FrameKeepsOwnsNone(s, s', t, s.published[pc.arena], u);
    }
  }

  lemma FrameKeepsCache(s: State, s': State, t: Thread, u: Thread)
    requires Frame(s, s', t) && u in s.pcs && u in s.caches && u != t && CacheOk(s, u)
    ensures CacheOk(s', u)
  {
  }

  /** Only the moving thread's own obligations remain. */
  lemma FrameKeepsArenas(s: State, s': State, t: Thread)
    requires Inv(s) && Frame(s, s', t) && IdsOk(s') && t in s.pcs
    ensures forall a :: a in s'.arenas ==> ArenaOk(s', a)
    ensures forall a, b :: Apart(s', a, b)
  {
    forall a | a in s'.arenas
      ensures ArenaOk(s', a)
    {
      assert ArenaOk(s, a) && ThreadOk(s, t);
      FrameKeepsArena(s, s', t, a);
    }
    forall a, b
      ensures Apart(s', a, b)
    {
      assert Apart(s, a, b);
    }
  }

  lemma FrameKeepsInv(s: State, s': State, t: Thread)
    requires Inv(s) && Frame(s, s', t) && IdsOk(s')
    requires ThreadOk(s', t) && CacheOk(s', t)
    requires forall u :: u in s.pcs ==> PrivatesDistinct(s', t, u) && PrivatesDistinct(s', u, t)
    ensures Inv(s')
  {
    FrameKeepsArenas(s, s', t);
    forall u | u in s'.pcs
      ensures ThreadOk(s', u) && CacheOk(s', u)
    {
      if u != t {
        assert ThreadOk(s, u) && CacheOk(s, u) && PrivatesDistinct(s, u, t);
        FrameKeepsThread(s, s', t, u);
        FrameKeepsCache(s, s', t, u);
      }
    }
    forall u, v | u in s'.pcs && v in s'.pcs
      ensures PrivatesDistinct(s', u, v)
    {
      assert PrivatesDistinct(s, u, v);
    }
  }

  predicate Pushes(s: State, act: Action) {
    act.CompareExchange? && act.t in s.pcs && s.pcs[act.t].NextSet? && s.pcs[act.t].arena in s.arenas &&
    s.arenas[s.pcs[act.t].arena].threads == s.pcs[act.t].head && !act.spurious
  }

  predicate Reads(act: Action) {
    act.LoadHint? || act.HintAnswers? || act.HintMisses? || act.EnterFallback? || act.BeginSearch? || act.SearchStep?
    || act.LoadHead?
  }

  lemma ReaderFrame(s: State, act: Action)
    requires Enabled(s, act) && s.pcs.Keys == s.caches.Keys && Reads(act)
    ensures Frame(s, Apply(s, act), act.t)
  {
  }

  lemma SharedWriterFrame(s: State, act: Action)
    requires Enabled(s, act) && s.pcs.Keys == s.caches.Keys
    requires act.Allocate? || act.SetNext? || (act.CompareExchange? && !Pushes(s, act))
    ensures Frame(s, Apply(s, act), act.t)
  {
  }

  lemma CacheWriterFrame(s: State, act: Action)
    requires Enabled(s, act) && s.pcs.Keys == s.caches.Keys && ThreadOk(s, act.t)
    requires act.CacheSerial? || act.CacheId? || act.StoreHint?
    ensures Frame(s, Apply(s, act), act.t)
  {
  }

  lemma StepFrame(s: State, act: Action)
    requires Enabled(s, act) && s.pcs.Keys == s.caches.Keys && ThreadOk(s, act.t)
    requires !act.InitArena? && !act.DestroyArena? && !Pushes(s, act)
    ensures Frame(s, Apply(s, act), act.t)
  {
    if Reads(act) {
      ReaderFrame(s, act);
    } else if act.CacheSerial? || act.CacheId? || act.StoreHint? {
      CacheWriterFrame(s, act);
    } else {
      SharedWriterFrame(s, act);
    }
  }

  /** Moves that only read shared memory. */
  lemma ReaderKeepsThread(s: State, act: Action)
    requires Enabled(s, act) && ThreadOk(s, act.t) && s.published.Keys == s.arenas.Keys
    requires act.LoadHint? || act.HintAnswers? || act.HintMisses? || act.EnterFallback? || act.BeginSearch?
    requires forall a :: a in s.arenas ==> ArenaOk(s, a)
    ensures ThreadOk(Apply(s, act), act.t)
  {
    if act.BeginSearch? {
      var a := s.pcs[act.t].arena;
      assert ArenaOk(s, a);
      var l := s.published[a];
      assert l[0..] == l && l[..0] == [];
      assert SearchedTo(Apply(s, act), a, act.t, s.arenas[a].threads, 0);
    } else if act.LoadHint? {
      assert ArenaOk(s, act.a);
    }
  }

  lemma SearchStepKeepsThread(s: State, act: Action)
    requires Enabled(s, act) && ThreadOk(s, act.t) && act.SearchStep?
    requires s.pcs[act.t].arena in s.arenas && ArenaOk(s, s.pcs[act.t].arena)
    ensures ThreadOk(Apply(s, act), act.t)
  {
    var t, a, cursor := act.t, s.pcs[act.t].arena, s.pcs[act.t].cursor;
    var l := s.published[a];
    var k :| SearchedTo(s, a, t, cursor, k);
    assert l[k..][0] == l[k];
    if s.serials[cursor.value].owner == t {
      assert Owned(Apply(s, act), a, cursor.value, t);
    } else {
      ChainAt(s.serials, s.arenas[a].threads, l, k);
      assert l[..k + 1] == l[..k] + [l[k]];
      assert SearchedTo(Apply(s, act), a, t, s.serials[cursor.value].next, k + 1);
    }
  }

  lemma AllocateKeepsThread(s: State, act: Action)
    requires Enabled(s, act) && ThreadOk(s, act.t) && act.Allocate? && s.published.Keys == s.arenas.Keys
    requires forall a :: a in s.arenas ==> ArenaOk(s, a)
    ensures ThreadOk(Apply(s, act), act.t)
  {
    var t, a := act.t, s.pcs[act.t].arena;
    var l := s.published[a];
    var k :| SearchedTo(s, a, t, None, k);
    assert k == |l| && l[..k] == l;
    forall b | b in s.published
      ensures act.address !in s.published[b]
    {
      assert ArenaOk(s, b);
    }
  }

  /** The rest of the fallback path, up to a failed exchange, and the three writes of CacheSerialArena. */
  lemma WriterKeepsThread(s: State, act: Action)
    requires Enabled(s, act) && ThreadOk(s, act.t) && s.pcs.Keys == s.caches.Keys
    requires act.LoadHead? || act.SetNext? || act.CompareExchange? || act.CacheSerial? || act.CacheId? || act.StoreHint?
    requires !Pushes(s, act)
    ensures ThreadOk(Apply(s, act), act.t)
  {
  }

  lemma CacheIdKeepsCache(s: State, act: Action)
    requires Enabled(s, act) && act.CacheId? && ThreadOk(s, act.t) && LivesDistinct(s)
    ensures CacheOk(Apply(s, act), act.t)
  {
    assert Owned(Apply(s, act), s.pcs[act.t].arena, s.pcs[act.t].serial, act.t);
  }

  lemma StepKeepsCache(s: State, act: Action)
    requires Enabled(s, act) && CacheOk(s, act.t) && act.t in s.caches
    requires !act.InitArena? && !act.DestroyArena? && !act.CacheId? && Frame(s, Apply(s, act), act.t)
    ensures CacheOk(Apply(s, act), act.t)
  {
  }

  lemma StepKeepsPrivates(s: State, act: Action, u: Thread)
    requires Enabled(s, act) && !act.InitArena? && !act.DestroyArena? && u in s.pcs
    requires ThreadOk(s, u) && PrivatesDistinct(s, act.t, u) && PrivatesDistinct(s, u, act.t)
    ensures PrivatesDistinct(Apply(s, act), act.t, u) && PrivatesDistinct(Apply(s, act), u, act.t)
  {
  }

  lemma FrameStepKeepsInv(s: State, act: Action)
    requires Inv(s) && Enabled(s, act) && IdsOk(Apply(s, act))
    requires !act.InitArena? && !act.DestroyArena? && !Pushes(s, act)
    ensures Inv(Apply(s, act))
  {
    var t, s' := act.t, Apply(s, act);
    assert ThreadOk(s, t) && CacheOk(s, t);
    StepFrame(s, act);
    if act.CacheId? { CacheIdKeepsCache(s, act); } else { StepKeepsCache(s, act); }
    forall u | u in s.pcs
      ensures PrivatesDistinct(s', t, u) && PrivatesDistinct(s', u, t)
    {
      assert ThreadOk(s, u) && PrivatesDistinct(s, t, u) && PrivatesDistinct(s, u, t);
      StepKeepsPrivates(s, act, u);
    }
    if act.SearchStep? {
      assert ArenaOk(s, s.pcs[t].arena);
      SearchStepKeepsThread(s, act);
    } else if act.Allocate? {
      AllocateKeepsThread(s, act);
    } else if act.LoadHead? || act.SetNext? || act.CompareExchange?
              || act.CacheSerial? || act.CacheId? || act.StoreHint? {
      WriterKeepsThread(s, act);
    } else {
      ReaderKeepsThread(s, act);
    }
    FrameKeepsInv(s, s', t);
  }

  // ----- the successful exchange -----

  /** Serial arena `x` of thread `t` became the head of arena `a`. */
  ghost predicate Pushed(s: State, s': State, t: Thread, a: ArenaRef, x: Serial) {
    && t in s.pcs && s'.pcs == s.pcs[t := Found(a, x)] && s'.caches == s.caches && s'.serials == s.serials
    && a in s.arenas && a in s.published
    && s'.arenas == s.arenas[a := s.arenas[a].(threads := Some(x))]
    && s'.published == s.published[a := [x] + s.published[a]]
    && Unpublished(s, x) && s.serials[x] == SerialArena(t, s.arenas[a].threads) && OwnsNone(s, s.published[a], t)
    && Private(s.pcs[t]) == Some(x)
  }

  lemma StepPushes(s: State, act: Action)
    requires Enabled(s, act) && ThreadOk(s, act.t) && Pushes(s, act)
    ensures Pushed(s, Apply(s, act), act.t, s.pcs[act.t].arena, s.pcs[act.t].serial)
  {
  }

  lemma PushKeepsArena(s: State, s': State, t: Thread, a: ArenaRef, x: Serial, b: ArenaRef)
    requires Pushed(s, s', t, a, x) && b in s.arenas && ArenaOk(s, b)
    ensures ArenaOk(s', b)
  {
    if b == a {
      var l := s.published[a];
      assert ([x] + l)[1..] == l;
      assert forall i :: 0 <= i < |l| ==> ([x] + l)[i + 1] == l[i];
    }
  }

  lemma PushKeepsApart(s: State, s': State, t: Thread, a: ArenaRef, x: Serial, b: ArenaRef, c: ArenaRef)
    requires Pushed(s, s', t, a, x) && Apart(s, b, c)
    ensures Apart(s', b, c)
  {
    if b in s.published && c in s.published && b != c {
      assert b == a ==> forall j :: 0 <= j < |s.published[c]| ==> s.published[c][j] in s.published[c];
      assert c == a ==> forall i :: 0 <= i < |s.published[b]| ==> s.published[b][i] in s.published[b];
    }
  }

  lemma OneFurther<T>(x: T, l: seq<T>, k: nat)
    requires k <= |l|
    ensures ([x] + l)[k + 1..] == l[k..] && ([x] + l)[..k + 1] == [x] + l[..k]
  {
    var all := [x] + l;
    assert |all[k + 1..]| == |l[k..]| && |all[..k + 1]| == |[x] + l[..k]|;
    forall i | 0 <= i < |l[k..]|
      ensures all[k + 1..][i] == l[k..][i]
    {
      assert all[k + 1..][i] == all[k + 1 + i] == l[k + i];
    }
  }

  lemma PushKeepsThread(s: State, s': State, t: Thread, a: ArenaRef, x: Serial, u: Thread)
    requires Pushed(s, s', t, a, x) && u in s.pcs && u != t && ThreadOk(s, u) && PrivatesDistinct(s, u, t)
    ensures ThreadOk(s', u)
  {
    var pc, l := s.pcs[u], s.published[a];
    if pc.Searching? && pc.arena == a {
      var k :| SearchedTo(s, a, u, pc.cursor, k);
      OneFurther(x, l, k);
      assert SearchedTo(s', a, u, pc.cursor, k + 1);
    } else if pc.Searching? {
      var k :| SearchedTo(s, pc.arena, u, pc.cursor, k);
      assert SearchedTo(s', pc.arena, u, pc.cursor, k);
    }
  }

  lemma PushKeepsCache(s: State, s': State, t: Thread, a: ArenaRef, x: Serial, u: Thread)
    requires Pushed(s, s', t, a, x) && u in s.pcs && u in s.caches && CacheOk(s, u)
    requires u == t ==> !s.pcs[u].SerialCached?
    ensures CacheOk(s', u)
  {
  }

  lemma PushKeepsLists(s: State, s': State, t: Thread, a: ArenaRef, x: Serial)
    requires Inv(s) && Pushed(s, s', t, a, x)
    ensures forall b :: b in s'.arenas ==> ArenaOk(s', b)
    ensures forall b, c :: Apart(s', b, c)
  {
    forall b | b in s'.arenas
      ensures ArenaOk(s', b)
    {
      assert ArenaOk(s, b);
      PushKeepsArena(s, s', t, a, x, b);
    }
    forall b, c
      ensures Apart(s', b, c)
    {
      assert Apart(s, b, c);
      PushKeepsApart(s, s', t, a, x, b, c);
    }
  }

  lemma PushKeepsThreads(s: State, s': State, t: Thread, a: ArenaRef, x: Serial, u: Thread)
    requires Inv(s) && Pushed(s, s', t, a, x) && u in s.pcs
    ensures ThreadOk(s', u) && CacheOk(s', u)
    ensures forall v :: v in s.pcs ==> PrivatesDistinct(s', u, v)
  {
    assert ThreadOk(s, u) && CacheOk(s, u) && PrivatesDistinct(s, u, t);
    PushKeepsCache(s, s', t, a, x, u);
    if u != t { PushKeepsThread(s, s', t, a, x, u); }
    forall v | v in s.pcs
      ensures PrivatesDistinct(s', u, v)
    {
      assert PrivatesDistinct(s, u, v);
    }
  }

  lemma PushStepKeepsInv(s: State, act: Action)
    requires Inv(s) && Enabled(s, act) && Pushes(s, act) && IdsOk(Apply(s, act))
    ensures Inv(Apply(s, act))
  {
    var t, s' := act.t, Apply(s, act);
    var a, x := s.pcs[t].arena, s.pcs[t].serial;
    assert ThreadOk(s, t);
    StepPushes(s, act);
    PushKeepsLists(s, s', t, a, x);
    forall u | u in s'.pcs
      ensures ThreadOk(s', u) && CacheOk(s', u)
      ensures forall v :: v in s'.pcs ==> PrivatesDistinct(s', u, v)
    {
      PushKeepsThreads(s, s', t, a, x, u);
    }
  }

  // ----- the end of an arena's lifetime -----

  /** Arena `a` was released, and perhaps set up again; everything outside it is as before. */
  ghost predicate Released(s: State, s': State, a: ArenaRef) {
    && s'.pcs == s.pcs && Quiescent(s, a) && s'.caches.Keys == s.caches.Keys
    && (forall u :: u in s.pcs && !s.pcs[u].Idle? && u in s.caches ==> s'.caches[u] == s.caches[u])
    && s.published.Keys == s.arenas.Keys && s'.published.Keys == s'.arenas.Keys
    && s'.arenas.Keys + {a} == s.arenas.Keys + {a}
    && (forall b :: b in s.arenas && b != a ==> s'.arenas[b] == s.arenas[b])
    && (forall b :: b in s.published && b != a ==> b in s'.published && s'.published[b] == s.published[b])
    && (forall x :: x in s.serials && x !in SerialsOf(s, a) ==> x in s'.serials && s'.serials[x] == s.serials[x])
    && (a in s'.published ==> forall i :: 0 <= i < |s'.published[a]| ==> s'.published[a][i] !in WithoutArena(s, a))
  }

  /** The serial arenas of the other arenas survive. */
  lemma OthersSurvive(s: State, a: ArenaRef, b: ArenaRef)
    requires a != b && b in s.arenas && ArenaOk(s, b) && Apart(s, a, b)
    ensures forall i :: 0 <= i < |s.published[b]| ==> s.published[b][i] in WithoutArena(s, a)
  {
    forall i | 0 <= i < |s.published[b]|
      ensures s.published[b][i] !in SerialsOf(s, a)
    {
      assert a in s.published ==> forall j :: 0 <= j < |s.published[a]| ==> s.published[a][j] != s.published[b][i];
    }
  }

  lemma ReleaseKeepsArena(s: State, s': State, a: ArenaRef, b: ArenaRef)
    requires Released(s, s', a) && a != b && b in s.arenas && ArenaOk(s, b) && Apart(s, a, b)
    ensures ArenaOk(s', b)
  {
    OthersSurvive(s, a, b);
    var l := s.published[b];
    forall x | x in l
      ensures x in s.serials && x in s'.serials && s'.serials[x] == s.serials[x]
    {
      var i :| 0 <= i < |l| && l[i] == x;
    }
    ChainFrame(s.serials, s'.serials, s.arenas[b].threads, l);
  }

  lemma ReleaseKeepsApart(s: State, s': State, a: ArenaRef, b: ArenaRef, c: ArenaRef)
    requires Released(s, s', a) && s.published.Keys == s.arenas.Keys
    requires forall d :: d in s.arenas ==> ArenaOk(s, d) && Apart(s, a, d)
    requires Apart(s, b, c)
    ensures Apart(s', b, c)
  {
    if b != c && b in s'.published && c in s'.published {
      if b != a { assert ArenaOk(s, b) && Apart(s, a, b); OthersSurvive(s, a, b); }
      if c != a { assert ArenaOk(s, c) && Apart(s, a, c); OthersSurvive(s, a, c); }
    }
  }

  lemma ReleaseKeepsOwnsNone(s: State, s': State, a: ArenaRef, b: ArenaRef, l: seq<Serial>, u: Thread)
    requires Released(s, s', a) && a != b && b in s.arenas && ArenaOk(s, b) && Apart(s, a, b)
    requires OwnsNone(s, l, u) && l <= s.published[b]
    ensures OwnsNone(s', l, u)
  {
    OthersSurvive(s, a, b);
    forall i | 0 <= i < |l|
      ensures l[i] in s'.serials && s'.serials[l[i]].owner != u
    {
      assert l[i] == s.published[b][i];
    }
  }

  lemma ReleaseKeepsThread(s: State, s': State, a: ArenaRef, u: Thread)
    requires Released(s, s', a) && u in s.pcs && ThreadOk(s, u)
    requires !s.pcs[u].Idle? ==> s.pcs[u].arena != a && ArenaOk(s, s.pcs[u].arena) && Apart(s, a, s.pcs[u].arena)
    ensures ThreadOk(s', u)
  {
    var pc := s.pcs[u];
    if !pc.Idle? {
      var b := pc.arena;
      OthersSurvive(s, a, b);
      if pc.Searching? {
        var k :| SearchedTo(s, b, u, pc.cursor, k);
        ReleaseKeepsOwnsNone(s, s', a, b, s.published[b][..k], u);
        assert SearchedTo(s', b, u, pc.cursor, k);
      } else if Private(pc).Some? {
        ReleaseKeepsOwnsNone(s, s', a, b, s.published[b], u);
        ReleaseKeepsUnpublished(s, s', a, pc.serial);
      }
    }
  }

  lemma ReleaseKeepsUnpublished(s: State, s': State, a: ArenaRef, x: Serial)
    requires Released(s, s', a) && Unpublished(s, x)
    ensures Unpublished(s', x) && s'.serials[x] == s.serials[x]
  {
    assert x in WithoutArena(s, a);
    forall b | b in s'.published
      ensures x !in s'.published[b]
    {
      if b != a { assert b in s.published; }
    }
  }

  lemma ReleaseKeepsCache(s: State, s': State, a: ArenaRef, u: Thread)
    requires Released(s, s', a) && u in s.pcs && u in s.caches && CacheOk(s, u)
    requires s'.caches[u].lastLifecycleIdSeen == s.caches[u].lastLifecycleIdSeen
    requires s'.caches[u].lastSerialArena == s.caches[u].lastSerialArena
    requires forall b :: b in s.arenas && b != a ==> ArenaOk(s, b) && Apart(s, a, b)
    requires a in s'.arenas ==> LifeCycleId(s'.arenas[a].tagAndId) != s'.caches[u].lastLifecycleIdSeen
    ensures CacheOk(s', u)
  {
    if !s.pcs[u].SerialCached? {
      forall b | b in s'.arenas && s'.caches[u].lastLifecycleIdSeen == LifeCycleId(s'.arenas[b].tagAndId)
        ensures s'.caches[u].lastSerialArena.Some? && Owned(s', b, s'.caches[u].lastSerialArena.value, u)
      {
        assert Owned(s, b, s.caches[u].lastSerialArena.value, u);
        OthersSurvive(s, a, b);
        var i :| 0 <= i < |s.published[b]| && s.published[b][i] == s.caches[u].lastSerialArena.value;
      }
    }
  }

  lemma InitReleases(s: State, act: Action)
    requires Enabled(s, act) && act.InitArena? && s.pcs.Keys == s.caches.Keys && s.published.Keys == s.arenas.Keys
    ensures Released(s, Apply(s, act), act.a)
  {
  }

  lemma DestroyReleases(s: State, act: Action)
    requires Enabled(s, act) && act.DestroyArena? && s.pcs.Keys == s.caches.Keys && s.published.Keys == s.arenas.Keys
    ensures Released(s, Apply(s, act), act.a)
  {
  }

  /** The part of the invariant that only needs the release. */
  lemma ReleaseKeepsRest(s: State, s': State, a: ArenaRef)
    requires Inv(s) && Released(s, s', a)
    ensures forall b :: b in s'.arenas && b != a ==> ArenaOk(s', b)
    ensures forall b, c :: Apart(s', b, c)
    ensures forall u :: u in s'.pcs ==> ThreadOk(s', u)
    ensures forall u, v :: u in s'.pcs && v in s'.pcs ==> PrivatesDistinct(s', u, v)
  {
    forall b | b in s'.arenas && b != a
      ensures ArenaOk(s', b)
    {
      assert b in s.arenas;
      assert ArenaOk(s, b) && Apart(s, a, b);
      ReleaseKeepsArena(s, s', a, b);
    }
    forall b, c
      ensures Apart(s', b, c)
    {
      assert Apart(s, b, c);
      ReleaseKeepsApart(s, s', a, b, c);
    }
    forall u | u in s'.pcs
      ensures ThreadOk(s', u)
    {
      assert ThreadOk(s, u);
      if !s.pcs[u].Idle? { assert ArenaOk(s, s.pcs[u].arena) && Apart(s, a, s.pcs[u].arena); }
      ReleaseKeepsThread(s, s', a, u);
    }
    forall u, v | u in s'.pcs && v in s'.pcs
      ensures PrivatesDistinct(s', u, v)
    {
      assert PrivatesDistinct(s, u, v);
    }
  }

  lemma InitKeepsInv(s: State, act: Action)
    requires Inv(s) && Enabled(s, act) && act.InitArena?
    requires Apply(s, act).generator <= BATCHES && IdsOk(Apply(s, act))
    ensures Inv(Apply(s, act))
  {
    var s', a := Apply(s, act), act.a;
    InitReleases(s, act);
    ReleaseKeepsRest(s, s', a);
    TakenIdIsFresh(s, act);
    InitKeepsOwn(s, act);
    forall u | u in s'.pcs
      ensures CacheOk(s', u)
    {
      assert CacheOk(s, u) && BatchOk(s, u);
      if u != act.t || act.initial.None? { ReleaseKeepsCache(s, s', a, u); }
    }
  }

  /** The arena that was just set up, and the cache of the thread that set it up with a first block. */
  lemma InitKeepsOwn(s: State, act: Action)
    requires Enabled(s, act) && act.InitArena? && s.pcs.Keys == s.caches.Keys && IdsOk(Apply(s, act))
    requires LifeCycleId(TaggedId(TakenId(s, act.t), act.record)) == TakenId(s, act.t)
    ensures ArenaOk(Apply(s, act), act.a)
    ensures act.initial.Some? ==> CacheOk(Apply(s, act), act.t)
  {
    var s', t, a := Apply(s, act), act.t, act.a;
    if act.initial.Some? {
      var x := act.initial.value;
      assert s'.published[a] == [x] && s'.serials[x] == SerialArena(t, None);
      assert Chain(s'.serials, None, [x][1..]);
      assert Owned(s', a, x, t);
    }
  }

  lemma DestroyKeepsInv(s: State, act: Action)
    requires Inv(s) && Enabled(s, act) && act.DestroyArena? && IdsOk(Apply(s, act))
    ensures Inv(Apply(s, act))
  {
    var s', a := Apply(s, act), act.a;
    DestroyReleases(s, act);
    ReleaseKeepsRest(s, s', a);
    forall u | u in s'.pcs
      ensures CacheOk(s', u)
    {
      assert CacheOk(s, u);
      ReleaseKeepsCache(s, s', a, u);
    }
  }

  // ----- every reachable state -----

  lemma StepKeepsInv(s: State, act: Action)
    requires Inv(s) && Enabled(s, act) && Apply(s, act).generator <= BATCHES
    ensures Inv(Apply(s, act))
  {
    StepKeepsIds(s, act);
    if act.InitArena? {
      InitKeepsInv(s, act);
    } else if act.DestroyArena? {
      DestroyKeepsInv(s, act);
    } else if Pushes(s, act) {
      PushStepKeepsInv(s, act);
    } else {
      FrameStepKeepsInv(s, act);
    }
  }

  lemma GeneratorGrows(s: State, act: Action)
    requires Enabled(s, act)
    ensures s.generator <= Apply(s, act).generator
  {
  }

  lemma InitialInv(s: State)
    requires Initial(s)
    ensures Inv(s)
  {
  }

  lemma {:induction false} RunKeepsInv(states: seq<State>, acts: seq<Action>, n: nat)
    requires IsRun(states, acts) && n < |states| && states[n].generator <= BATCHES
    ensures Inv(states[n])
  {
    if n == 0 {
      InitialInv(states[0]);
    } else {
      var s, act := states[n - 1], acts[n - 1];
      assert StepAt(states, acts, n - 1);
      GeneratorGrows(s, act);
      RunKeepsInv(states, acts, n - 1);
      StepKeepsInv(s, act);
    }
  }

  // ----- the fast lookups -----

  /** The linear search of GetSerialArenaFallback over the list behind threads_. */
  function Search(m: map<Serial, SerialArena>, l: seq<Serial>, t: Thread): Option<Serial> {
    if l == [] then None
    else if l[0] in m && m[l[0]].owner == t then Some(l[0])
    else Search(m, l[1..], t)
  }

  lemma {:induction false} SearchFindsOwned(m: map<Serial, SerialArena>, l: seq<Serial>, t: Thread, x: Serial)
    requires OwnersDistinct(m, l) && x in l && x in m && m[x].owner == t
    ensures Search(m, l, t) == Some(x)
  {
    if l[0] != x {
      var i :| 0 <= i < |l| && l[i] == x;
      assert l[1..][i - 1] == x;
      SearchFindsOwned(m, l[1..], t, x);
    }
  }

  /** GetSerialArenaFromThreadCache: no answer, or the cached pointer, whatever it is. */
  function FromThreadCache(s: State, t: Thread, lifecycleId: nat): Option<Option<Serial>>
    requires t in s.caches
  {
    if s.caches[t].lastLifecycleIdSeen == lifecycleId then Some(s.caches[t].lastSerialArena) else None
  }

  /** A lifecycle id that was handed out never equals the sentinel; with the record tag only the last one does. */
  lemma HandedOutBelowSentinel(s: State, id: nat)
    requires IdsOk(s) && id in s.handedOut && s.generator <= BATCHES
    ensures id % DELTA == 0 && id < NEVER_SEEN
  {
    var i :| 0 <= i < |s.handedOut| && s.handedOut[i] == id;
    assert Spent(s, s.handedOut[i]);
    NextBelow(id, s.generator);
  }

  /** A cache that never saw an arena points nowhere. */
  ghost predicate FreshOk(s: State, t: Thread)
    requires t in s.caches && t in s.pcs
  {
    !s.pcs[t].SerialCached? && s.caches[t].lastLifecycleIdSeen == NEVER_SEEN ==> s.caches[t].lastSerialArena == None
  }

  lemma StepKeepsFresh(s: State, act: Action, t: Thread)
    requires Enabled(s, act) && t in s.caches && t in s.pcs && FreshOk(s, t)
    ensures var s' := Apply(s, act); t in s'.caches && t in s'.pcs && FreshOk(s', t)
  {
    assert forall id: nat :: LifeCycleId(id) % 2 == 0;
  }

  lemma {:induction false} RunKeepsFresh(states: seq<State>, acts: seq<Action>, n: nat, t: Thread)
    requires IsRun(states, acts) && n < |states| && t in states[n].caches
    ensures t in states[n].pcs && FreshOk(states[n], t)
  {
    if n > 0 {
      var s, act := states[n - 1], acts[n - 1];
      assert StepAt(states, acts, n - 1);
      assert states[n].caches.Keys == s.caches.Keys;
      RunKeepsFresh(states, acts, n - 1, t);
      StepKeepsFresh(s, act, t);
    }
  }

  /** What the linear search would answer, if it finds anything. */
  ghost predicate IsOwn(s: State, t: Thread, a: ArenaRef, answer: Option<Serial>) {
    a in s.published && answer.Some? && answer == Search(s.serials, s.published[a], t)
  }

  /**
   In every reachable state of every interleaving, when the thread cache answers for an arena, asked with
   the tagged or the masked lifecycle id, the answer is what the linear search would find, this thread's own
   serial arena in this arena's current lifetime, if and only if it was not asked with the sentinel; asked
   with the sentinel, a cache that never saw an arena answers with a null pointer.
   */
  lemma ThreadCacheAgrees(states: seq<State>, acts: seq<Action>, n: nat, t: Thread, a: ArenaRef, lifecycleId: nat)
    requires IsRun(states, acts) && n < |states| && states[n].generator <= BATCHES
    requires t in states[n].caches && t in states[n].pcs && states[n].pcs[t] == Idle && a in states[n].arenas
    requires lifecycleId == states[n].arenas[a].tagAndId || lifecycleId == LifeCycleId(states[n].arenas[a].tagAndId)
    ensures var answer := FromThreadCache(states[n], t, lifecycleId);
            answer.Some? ==> (IsOwn(states[n], t, a, answer.value) <==> lifecycleId != NEVER_SEEN)
    ensures lifecycleId == NEVER_SEEN && FromThreadCache(states[n], t, lifecycleId).Some?
            ==> FromThreadCache(states[n], t, lifecycleId) == Some(None)
  {
    var s := states[n];
    RunKeepsInv(states, acts, n);
    RunKeepsFresh(states, acts, n, t);
    assert ThreadOk(s, t) && CacheOk(s, t) && BatchOk(s, t) && ArenaOk(s, a);
    var life := LifeCycleId(s.arenas[a].tagAndId);
    HandedOutBelowSentinel(s, life);
    if FromThreadCache(s, t, lifecycleId).Some? && lifecycleId != NEVER_SEEN {
      HandedOutBelowSentinel(s, s.caches[t].lastLifecycleIdSeen);
      assert lifecycleId == life;
      assert Owned(s, a, s.caches[t].lastSerialArena.value, t);
      SearchFindsOwned(s.serials, s.published[a], t, s.caches[t].lastSerialArena.value);
    }
  }

  /** When the hint answers, or the fallback path has found or published a serial arena, that is also
      what the linear search finds. */
  lemma HintAndFallbackAgree(states: seq<State>, acts: seq<Action>, n: nat, t: Thread)
    requires IsRun(states, acts) && n < |states| && states[n].generator <= BATCHES
    requires t in states[n].pcs
    ensures var s := states[n];
            Enabled(s, HintAnswers(t)) ==>
              (s.pcs[t].arena in s.published && s.pcs[t].hint == Search(s.serials, s.published[s.pcs[t].arena], t))
    ensures var s := states[n];
            (s.pcs[t].Found? || s.pcs[t].SerialCached? || s.pcs[t].IdCached?) ==>
              (s.pcs[t].arena in s.published &&
               Some(s.pcs[t].serial) == Search(s.serials, s.published[s.pcs[t].arena], t))
  {
    var s := states[n];
    RunKeepsInv(states, acts, n);
    assert ThreadOk(s, t);
    var pc := s.pcs[t];
    if !pc.Idle? {
      assert ArenaOk(s, pc.arena);
      if Enabled(s, HintAnswers(t)) { SearchFindsOwned(s.serials, s.published[pc.arena], t, pc.hint.value); }
      if pc.Found? || pc.SerialCached? || pc.IdCached? {
        SearchFindsOwned(s.serials, s.published[pc.arena], t, pc.serial);
      }
    }
  }

  // ----- the lock-free push -----

  /** In every reachable state the list behind threads_ ends, holds exactly the serial arenas whose push
      succeeded in this lifetime, each once, and no two of them have the same owner. */
  lemma ListIsExact(states: seq<State>, acts: seq<Action>, n: nat, a: ArenaRef)
    requires IsRun(states, acts) && n < |states| && states[n].generator <= BATCHES
    requires a in states[n].arenas
    ensures var s := states[n];
            a in s.published && Chain(s.serials, s.arenas[a].threads, s.published[a]) &&
            NoRepeats(s.published[a]) && OwnersDistinct(s.serials, s.published[a])
  {
    RunKeepsInv(states, acts, n);
    assert ArenaOk(states[n], a);
  }

  predicate EndsLifetime(act: Action, a: ArenaRef) {
    (act.InitArena? || act.DestroyArena?) && act.a == a
  }

  /** Once published, a serial arena stays in the list at the same distance from its end until the arena
      is reset or destroyed. */
  lemma {:induction false} NothingLost(states: seq<State>, acts: seq<Action>, i: nat, j: nat, a: ArenaRef)
    requires IsRun(states, acts) && i <= j < |states|
    requires forall k :: i <= k < j ==> !EndsLifetime(acts[k], a)
    requires a in states[i].published
    ensures a in states[j].published && |states[i].published[a]| <= |states[j].published[a]|
    ensures states[j].published[a][|states[j].published[a]| - |states[i].published[a]|..] == states[i].published[a]
    decreases j - i
  {
    if i < j {
      NothingLost(states, acts, i, j - 1, a);
      assert StepAt(states, acts, j - 1);
      OneStepGrows(states[j - 1], acts[j - 1], a);
    }
  }

  lemma OneStepGrows(s: State, act: Action, a: ArenaRef)
    requires Enabled(s, act) && !EndsLifetime(act, a) && a in s.published
    ensures var s' := Apply(s, act);
            a in s'.published &&
            (s'.published[a] == s.published[a] ||
             (Pushes(s, act) && s.pcs[act.t].arena == a && s'.published[a] == [s.pcs[act.t].serial] + s.published[a]))
  {
  }

  /** As long as 64 bits suffice, the lifecycle ids handed out in a run are pairwise different, even, and
      never the sentinel. */
  lemma IdsDistinct(states: seq<State>, acts: seq<Action>, n: nat)
    requires IsRun(states, acts) && n < |states| && states[n].generator <= BATCHES
    ensures NoRepeats(states[n].handedOut)
    ensures forall i :: 0 <= i < |states[n].handedOut| ==>
              states[n].handedOut[i] % DELTA == 0 && states[n].handedOut[i] < NEVER_SEEN
  {
    RunKeepsInv(states, acts, n);
    forall i | 0 <= i < |states[n].handedOut|
      ensures states[n].handedOut[i] % DELTA == 0 && states[n].handedOut[i] < NEVER_SEEN
    {
      HandedOutBelowSentinel(states[n], states[n].handedOut[i]);
    }
  }

  // ----- no step faults -----

  /** What a thread inside an arena does next; where a new serial arena goes and whether a compare-and-swap
      fails for no reason is up to others. */
  function NextAction(s: State, t: Thread, address: Serial, garbage: Option<Serial>, spurious: bool): Action
    requires t in s.pcs && !s.pcs[t].Idle?
  {
    match s.pcs[t]
    case HintLoaded(_, hint) =>
      if hint.Some? && hint.value in s.serials && s.serials[hint.value].owner == t
      then HintAnswers(t)
      else HintMisses(t)
    case Fallback(_) => BeginSearch(t)
    case Searching(_, cursor) => if cursor.Some? then SearchStep(t) else Allocate(t, address, garbage)
    case Allocated(_, _) => LoadHead(t)
    case HeadLoaded(_, _, _) => SetNext(t)
    case NextSet(_, _, _) => CompareExchange(t, spurious)
    case Found(_, _) => CacheSerial(t)
    case SerialCached(_, _) => CacheId(t)
    case IdCached(_, _) => StoreHint(t)
  }

  /** In every reachable state a thread inside an arena can take its next step: the arena is alive, and the hint,
      the search cursor and the serial arena it holds can be dereferenced. */
  lemma NoFault(states: seq<State>, acts: seq<Action>, n: nat, t: Thread, address: Serial, garbage: Option<Serial>,
                spurious: bool)
    requires IsRun(states, acts) && n < |states| && states[n].generator <= BATCHES
    requires t in states[n].pcs && !states[n].pcs[t].Idle? && address !in states[n].serials
    ensures Enabled(states[n], NextAction(states[n], t, address, garbage, spurious))
  {
    var s := states[n];
    RunKeepsInv(states, acts, n);
    assert ThreadOk(s, t);
    var pc := s.pcs[t];
    assert ArenaOk(s, pc.arena);
    if pc.Searching? {
      var k :| SearchedTo(s, pc.arena, t, pc.cursor, k);
      if pc.cursor.Some? { assert pc.cursor.value == s.published[pc.arena][k]; }
    }
  }
}
