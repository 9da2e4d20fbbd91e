/**
 ThreadSafeArena between its concurrent phases: the list of serial arenas it owns, the policy it
 keeps in its own first block, and the teardown that Reset and the destructor run.
 */
module ThreadSafeArena {
  import opened Common
  import opened SerialLayout
  import opened SerialArena
  import opened SerialRuns

  /** The policy, copied into the arena's first block. */
  datatype StoredPolicy = StoredPolicy(at: Addr, policy: AllocationPolicy)

  /** kMinimumSize: an initial block must hold its header, the SerialArena and the policy. */
  const MINIMUM: nat := HEADER + SERIAL + POLICY

  ghost predicate ListApartAt(layouts: seq<Layout>, i: nat, j: nat)
    requires i < |layouts| && j < |layouts|
  {
    Bases(layouts[i].segments) !! Bases(layouts[j].segments)
  }

  /** No block belongs to two arenas. */
  ghost predicate Apart(layouts: seq<Layout>) {
    forall i, j :: 0 <= i < j < |layouts| ==> ListApartAt(layouts, i, j)
  }

  lemma ApartBoth(layouts: seq<Layout>, i: nat, j: nat)
    requires Apart(layouts) && i < |layouts| && j < |layouts| && i != j
    ensures Bases(layouts[i].segments) !! Bases(layouts[j].segments)
  {
    if i < j { assert ListApartAt(layouts, i, j); } else { assert ListApartAt(layouts, j, i); }
  }

  /** Every block came from the system, except that the first may belong to someone else. */
  ghost predicate Owned(l: Layout, live: map<Addr, Chunk>, first: Ownership) {
    l.segments != [] &&
    forall b :: b in Bases(l.segments) ==>
      b in live && live[b].ownership == (if b == HomeOf(l) then first else System)
  }

  /** Only the oldest serial arena, the last of the list, can sit in a block lent by the user. */
  function FirstOwner(userOwned: bool, i: nat, n: nat): Ownership {
    if userOwned && i == n - 1 then User else System
  }

  ghost predicate OwnedAt(layouts: seq<Layout>, live: map<Addr, Chunk>, userOwned: bool, i: nat)
    requires i < |layouts|
  {
    Owned(layouts[i], live, FirstOwner(userOwned, i, |layouts|))
  }

  ghost predicate AllOwned(layouts: seq<Layout>, live: map<Addr, Chunk>, userOwned: bool) {
    forall i :: 0 <= i < |layouts| ==> OwnedAt(layouts, live, userOwned, i)
  }

  function LastSize(l: Layout): nat
    requires l.segments != []
  {
    l.segments[|l.segments| - 1].size
  }

  /** The policy occupies data of the block its arena was made in, and what kMinimumSize promises about that block. */
  ghost predicate PolicyKept(l: Layout, stored: Option<StoredPolicy>) {
    l.segments != [] && LastSize(l) >= MinimumSize(stored) &&
    (stored.Some? ==> Inside(l.segments[|l.segments| - 1], Range(stored.value.at, POLICY)))
  }

  function MinimumSize<T>(stored: Option<T>): nat {
    if stored.Some? then MINIMUM else HEADER + SERIAL
  }

  function TotalData(layouts: seq<Layout>): nat {
    if layouts == [] then 0 else DataSize(layouts[0].data) + TotalData(layouts[1..])
  }

  function TotalBlocks(layouts: seq<Layout>): nat {
    if layouts == [] then 0 else BlockSize(layouts[0].segments) + TotalBlocks(layouts[1..])
  }

  /** The blocks of the first i arenas of the list. */
  function BasesBefore(layouts: seq<Layout>, i: nat): set<Addr>
    requires i <= |layouts|
  {
    if i == 0 then {} else BasesBefore(layouts, i - 1) + Bases(layouts[i - 1].segments)
  }

  ghost predicate CallsInAt(nodes: map<int, CleanupNode>, layouts: seq<Layout>, i: nat)
    requires i < |layouts|
  {
    AllIn(nodes, AllVisited(layouts[i].segments))
  }

  /** CleanupList finds a registered node wherever it looks. */
  ghost predicate CallsIn(nodes: map<int, CleanupNode>, layouts: seq<Layout>) {
    forall i :: 0 <= i < |layouts| ==> CallsInAt(nodes, layouts, i)
  }

  /** Each arena's nodes in memory are the cleanups registered with it. */
  ghost predicate NodesKept(nodes: map<int, CleanupNode>, layouts: seq<Layout>, cleanups: seq<seq<CleanupNode>>) {
    && |cleanups| == |layouts|
    && forall i :: 0 <= i < |layouts| ==> NodesKeptAt(nodes, layouts, cleanups, i)
  }

  ghost predicate NodesKeptAt(nodes: map<int, CleanupNode>, layouts: seq<Layout>, cleanups: seq<seq<CleanupNode>>,
                              i: nat)
    requires i < |layouts| == |cleanups|
  {
    ExactNodes(nodes, AllSlots(layouts[i].segments), cleanups[i])
  }

  function Flat(cleanups: seq<seq<CleanupNode>>, i: nat): seq<CleanupNode>
    requires i <= |cleanups|
  {
    if i == 0 then [] else Flat(cleanups, i - 1) + cleanups[i - 1]
  }

  /** `ran` is every registered cleanup, once, arena by arena and each latest first, if and only if the blocks let
      CleanupList count their nodes. */
  ghost predicate EveryCleanup(ran: seq<CleanupNode>, layouts: seq<Layout>, cleanups: seq<seq<CleanupNode>>) {
    ran == Flat(cleanups, |cleanups|) <==> CountedTo(layouts, |layouts|)
  }

  ghost predicate CountedAt(layouts: seq<Layout>, i: nat)
    requires i < |layouts|
  {
    forall k :: 0 <= k < |layouts[i].segments| ==> CountsNodes(layouts[i].segments[k])
  }

  ghost predicate CountedTo(layouts: seq<Layout>, n: nat)
    requires n <= |layouts|
  {
    forall i :: 0 <= i < n ==> CountedAt(layouts, i)
  }

  /** The cleanups that the arenas of the list run, in list order. */
  ghost function Calls(nodes: map<int, CleanupNode>, layouts: seq<Layout>, i: nat): seq<CleanupNode>
    requires CallsIn(nodes, layouts) && i <= |layouts|
  {
    if i == 0 then [] else Calls(nodes, layouts, i - 1) + CallsOf(nodes, layouts, i - 1)
  }

  ghost function CallsOf(nodes: map<int, CleanupNode>, layouts: seq<Layout>, i: nat): seq<CleanupNode>
    requires CallsIn(nodes, layouts) && i < |layouts|
  {
    assert CallsInAt(nodes, layouts, i);
    NodesAt(nodes, AllVisited(layouts[i].segments))
  }

  /** One arena of the list, the k-th, changed and kept its data; or a new one, with its own object as first data,
      was put in front of the others. */
  ghost predicate Extends(before: seq<Layout>, after: seq<Layout>, k: nat) {
    k < |after| &&
    if |after| == |before| then after == before[k := after[k]] && before[k].data <= after[k].data
    else k == 0 && after == [after[0]] + before
  }

  /** The data arena k had before it was extended. */
  function DataBefore(before: seq<Layout>, after: seq<Layout>, k: nat): seq<Range>
    requires Extends(before, after, k)
  {
    if |after| == |before| then before[k].data else if after[0].data == [] then [] else after[0].data[..1]
  }

  /** A new serial arena in one new block. */
  ghost predicate MadeFor(l: Layout, live: map<Addr, Chunk>, live': map<Addr, Chunk>,
                          policy: Option<AllocationPolicy>)
  {
    && l.segments != []
    && var base, size := HomeOf(l), MemorySize(policy, 0, SERIAL);
       && base !in live && l == First(base, size) && live' == live[base := Chunk(size, System)]
  }

  /** Where a request was served: in the arena the thread had, as ServedIn says, and if it had none in one that was
      made for it in a block of its own. */
  ghost predicate ServedAt(before: seq<Layout>, after: seq<Layout>, k: nat, live: map<Addr, Chunk>,
                           live': map<Addr, Chunk>, need: nat, policy: Option<AllocationPolicy>)
  {
    && k < |after|
    && if |after| == |before| then ServedIn(before[k], after[k], live, live', need, policy)
       else
         && after[k].segments != []
         && var base, size := HomeOf(after[k]), MemorySize(policy, 0, SERIAL);
            && base !in live
            && ServedIn(First(base, size), after[k], live[base := Chunk(size, System)], live', need, policy)
  }

  /** `x` is the first of the k-th list; a list that is new holds nothing else. */
  function CleanupAdded(before: seq<seq<CleanupNode>>, k: nat, isNew: bool, x: CleanupNode): seq<seq<CleanupNode>>
    requires !isNew ==> k < |before|
  {
    if isNew then [[x]] + before else before[k := [x] + before[k]]
  }

  function PolicyOf(stored: Option<StoredPolicy>): Option<AllocationPolicy> {
    if stored.Some? then Some(stored.value.policy) else None
  }

  /** The live memory that the arena does not have to give back. */
  function Foreign(live: map<Addr, Chunk>, layouts: seq<Layout>, userOwned: bool): map<Addr, Chunk> {
    live - OwnBlocks(layouts, userOwned)
  }

  ghost predicate EightfoldAt(layouts: seq<Layout>, i: nat)
    requires i < |layouts|
  {
    EightfoldBlocks(layouts[i].segments)
  }

  /** All blocks of all arenas have sizes that are multiples of 8. */
  ghost predicate EightfoldAll(layouts: seq<Layout>) {
    forall i :: 0 <= i < |layouts| ==> EightfoldAt(layouts, i)
  }

  /** What serving a request does to the memory: nothing becomes live that the arena will not give back, nothing else
      goes, and block sizes stay multiples of 8 if the policy asks for such. */
  ghost predicate Grew(live: map<Addr, Chunk>, layouts: seq<Layout>, live': map<Addr, Chunk>, layouts': seq<Layout>,
                       userOwned: bool, policy: Option<AllocationPolicy>) {
    && Foreign(live', layouts', userOwned) == Foreign(live, layouts, userOwned)
    && (Eightfold(policy) && EightfoldAll(layouts) ==> EightfoldAll(layouts'))
  }

  function PolicySize(stored: Option<StoredPolicy>): nat {
    if stored.Some? then POLICY else 0
  }

  class ThreadSafeArena {
    const memory: Memory
    var threads: SerialArena?
    var userOwned: bool
    var stored: Option<StoredPolicy>
    ghost var serials: seq<SerialArena>
    ghost var layouts: seq<Layout>
    /** Bytes asked for by callers since the last Init. */
    ghost var served: nat
    /** For each arena the cleanups registered with it, latest first. */
    ghost var cleanups: seq<seq<CleanupNode>>

    /** The list itself: distinct arenas of distinct owners, disjoint blocks, the policy in the oldest, and the
        accounts. */
    ghost predicate ListOk()
      requires |layouts| == |serials|
      reads this, serials
    {
      && threads == NextOf(serials, 0) && Apart(layouts)
      && (forall i, j :: 0 <= i < j < |serials| ==> serials[i] != serials[j] && serials[i].owner != serials[j].owner)
      && (if serials == [] then !userOwned && stored.None? else PolicyKept(layouts[|layouts| - 1], stored))
      && TotalData(layouts) == served + SERIAL * |layouts| + PolicySize(stored)
    }

    ghost predicate Listed()
      reads this, memory, serials
    {
      && memory.Valid() && |layouts| == |serials| && ListOk()
      && AllAt(memory, serials, layouts, memory.blocks, memory.live) && AllOwned(layouts, memory.live, userOwned)
    }

    ghost predicate Valid()
      reads this, memory, serials
    {
      Listed() && NodesKept(memory.nodes, layouts, cleanups)
    }

    /** The policy constructor, and with no policy the plain one; mem is 0 when no initial block is given. */
    constructor (memory: Memory, mem: Addr, size: nat, policy: Option<AllocationPolicy>, me: nat)
      requires memory.Valid() && Lent(memory.live, mem, size)
      modifies memory
      ensures Valid() && this.memory == memory && served == 0 && forall c :: c in cleanups ==> c == []
      ensures forall i :: 0 <= i < |serials| ==> fresh(serials[i])
      ensures userOwned <==> mem != 0 && (if Keeps(policy) then MINIMUM else HEADER + SERIAL) <= size
      ensures if Keeps(policy) then stored.Some? && stored.value.policy == policy.value else stored.None?
      ensures stored.None? <==> policy == None || policy == Some(AllocationPolicy(8192, 8192))
      ensures Foreign(memory.live, layouts, userOwned) == old(memory.live)
      ensures Eightfold(policy) && (mem != 0 ==> size % 8 == 0) ==> EightfoldAll(layouts)
    {
      this.memory, threads, userOwned, stored := memory, null, false, None;
      serials, layouts, served, cleanups := [], [], 0, [];
      new;
      hide ListOk, Sound, NodesKept, AllOwned, EightfoldAll, Foreign, Restarted, IsHome, First, Bump;
      if Keeps(policy) {
        InitializeWithPolicy(mem, size, policy.value, me);
      } else {
        InitializeFrom(mem, size, me);
      }
    }

    /** Init, without the lifecycle ids: the arena owns nothing. */
    method Init()
      modifies this
      ensures threads == null && serials == [] && layouts == [] && served == 0 && cleanups == []
      ensures userOwned == old(userOwned) && stored == old(stored)
    {
      threads, serials, layouts, served, cleanups := null, [], [], 0, [];
    }

    method SetInitialBlock(mem: Addr, size: nat, me: nat)
      requires memory.Valid() && HEADER + SERIAL <= size
      requires mem in memory.live && memory.live[mem].size == size
      modifies this, memory`blocks
      ensures memory.Valid() && threads != null && fresh(threads) && serials == [threads]
              && layouts == [First(mem, size)]
      ensures threads.memory == memory && threads.Valid() && threads.layout == layouts[0] && threads.next == null
      ensures userOwned == old(userOwned) && stored == old(stored) && served == old(served)
      ensures cleanups == [[]]
    {
      var serial := new SerialArena(memory, mem, size, me);
      threads, serials, layouts, cleanups := serial, [serial], [First(mem, size)], [[]];
    }

    method InitializeFrom(mem: Addr, size: nat, me: nat)
      requires memory.Valid() && Lent(memory.live, mem, size) && stored.None?
      requires userOwned ==> mem != 0 && HEADER + SERIAL <= size
      modifies this, memory`blocks
      ensures Valid() && served == 0 && stored.None? && forall i :: 0 <= i < |serials| ==> fresh(serials[i])
      ensures userOwned <==> mem != 0 && HEADER + SERIAL <= size
      ensures layouts == (if userOwned then [First(mem, size)] else []) && |cleanups| <= 1
              && forall c :: c in cleanups ==> c == []
      ensures Started(mem, size, None, memory.live, memory.live, layouts, stored, userOwned)
    {
      hide Started, Sound, Owned, Foreign, EightfoldAll, Restarted, ExactNodes;
      StartedFrom(mem, size, memory.live, mem != 0 && HEADER + SERIAL <= size);
      Init();
      if mem != 0 && HEADER + SERIAL <= size {
        userOwned := true;
        FirstOwned(memory.live, mem, size, User);
        SetInitialBlock(mem, size, me);
        assert SerialAt(memory, serials, layouts, 0, memory.blocks, memory.live);
        NoNodesYet(memory.nodes, First(mem, size));
      }
    }

    method InitializeWithPolicy(mem: Addr, size: nat, policy: AllocationPolicy, me: nat)
      requires memory.Valid() && Lent(memory.live, mem, size)
      modifies this, memory
      ensures Valid() && served == 0 && |layouts| == 1 && cleanups == [[]]
              && forall i :: 0 <= i < |serials| ==> fresh(serials[i])
      ensures stored.Some? && stored.value.policy == policy
      ensures userOwned <==> mem != 0 && MINIMUM <= size
      ensures userOwned ==> layouts[0] == Bump(First(mem, size), POLICY) && memory.live == old(memory.live)
      ensures !userOwned ==>
                var home, n := HomeOf(layouts[0]), MemorySize(Some(policy), 0, MINIMUM);
                && home !in old(memory.live) && memory.live == old(memory.live)[home := Chunk(n, System)]
                && layouts[0] == Bump(First(home, n), POLICY)
      ensures Started(mem, size, Some(policy), old(memory.live), memory.live, layouts, stored, userOwned)
    {
      ghost var live := memory.live;
      Init();
      var m, n := mem, size;
      userOwned, stored := mem != 0 && MINIMUM <= size, None;
      if !userOwned {
        n := MemorySize(Some(policy), 0, MINIMUM);
        m := memory.Allocate(n);
      }
      SetInitialBlock(m, n, me);
      StorePolicy(m, n, policy);
      StartedWithPolicy(mem, size, policy, live, memory.live, layouts[0], stored, userOwned);
    }

    /** Copy the policy into the first block, where there is room for it. */
    method StorePolicy(base: Addr, size: nat, policy: AllocationPolicy)
      requires MINIMUM <= size && base % 8 == 0 && base in memory.live
      requires memory.live[base] == Chunk(size, FirstOwner(userOwned, 0, 1))
      requires threads != null && serials == [threads] && layouts == [First(base, size)] && served == 0
               && cleanups == [[]]
      requires threads.memory == memory && threads.Valid() && threads.layout == layouts[0] && threads.next == null
      modifies this`stored, this`layouts, threads
      ensures Valid() && stored.Some? && stored.value.policy == policy && layouts == [Bump(First(base, size), POLICY)]
      ensures serials == old(serials)
    {
      PolicyFits(base, size);
      PolicyOwned(memory.live, base, size, FirstOwner(userOwned, 0, 1));
      var ok, p := threads.MaybeAllocateAligned(POLICY);
      assert ok;
      stored := Some(StoredPolicy(p, policy));
      layouts := [Bump(First(base, size), POLICY)];
      SlotsAfterOther(First(base, size), POLICY, 0, 0);
      NoNodesYet(memory.nodes, layouts[0]);
      assert SerialAt(memory, serials, layouts, 0, memory.blocks, memory.live);
    }

    /** Dereferencing the tagged policy pointer: its block must still be there. */
    method AllocPolicy() returns (policy: Option<AllocationPolicy>)
      requires stored.Some? ==> layouts != [] && layouts[|layouts| - 1].segments != []
      requires stored.Some? ==> HomeOf(layouts[|layouts| - 1]) in memory.live
      ensures policy == if stored.Some? then Some(stored.value.policy) else None
    {
      policy := if stored.Some? then Some(stored.value.policy) else None;
    }

    /** GetSerialArenaFallback, with no other thread pushing meanwhile: the caller's arena, made and put in front if
        needed. */
    method GetSerialArenaFallback(me: nat) returns (serial: SerialArena, ghost k: nat)
      requires Valid()
      modifies this, memory
      ensures Valid() && k < |serials| && serial == serials[k] && serial.owner == me
      ensures userOwned == old(userOwned) && stored == old(stored) && served == old(served)
      ensures if exists i :: 0 <= i < |old(serials)| && old(serials)[i].owner == me
              then serials == old(serials) && layouts == old(layouts) && cleanups == old(cleanups)
              else k == 0 && fresh(serial) && serials == [serial] + old(serials)
                   && layouts == [serial.layout] + old(layouts)
                   && |serial.layout.data| == 1 && cleanups == [[]] + old(cleanups)
                   && MadeFor(serial.layout, old(memory.live), memory.live, PolicyOf(stored))
      ensures |serials| == |old(serials)| ==> memory.live == old(memory.live)
      ensures serial in old(serials) || fresh(serial)
      ensures Grew(old(memory.live), old(layouts), memory.live, layouts, userOwned, PolicyOf(stored))
    {
      var found := threads;
      k := 0;
      while found != null && found.owner != me
        modifies {}
        invariant k <= |serials| && found == NextOf(serials, k)
        invariant forall j :: 0 <= j < k ==> serials[j].owner != me
        decreases |serials| - k
      {
        assert SerialAt(memory, serials, layouts, k, memory.blocks, memory.live);
        found := found.next;
        k := k + 1;
      }
      if found != null {
        serial := found;
      } else {
        serial := PushSerialArena(me);
        k := 0;
      }
    }

    /** A new arena for this thread, in a block of its own. */
    method NewSerialArena(me: nat, policy: Option<AllocationPolicy>) returns (serial: SerialArena)
      requires memory.Valid()
      modifies memory`live, memory`top, memory`blocks
      ensures memory.Valid() && fresh(serial) && serial.memory == memory && serial.owner == me && serial.Valid()
      ensures var n := MemorySize(policy, 0, SERIAL);
              var base := HomeOf(serial.layout);
              && serial.layout == First(base, n) && base !in old(memory.live)
              && memory.live == old(memory.live)[base := Chunk(n, System)]
      ensures MemoryGrew(old(memory.live), memory.live, old(memory.blocks), memory.blocks, {})
    {
      var n := MemorySize(policy, 0, SERIAL);
      var base := memory.Allocate(n);
      serial := new SerialArena(memory, base, n, me);
    }

    /** The arena goes to the front of the list. */
    method PushSerialArena(me: nat) returns (serial: SerialArena)
      requires Valid() && forall j :: 0 <= j < |serials| ==> serials[j].owner != me
      modifies this, memory
      ensures Valid() && serial.owner == me && fresh(serial)
      ensures userOwned == old(userOwned) && stored == old(stored) && served == old(served)
      ensures serials == [serial] + old(serials) && layouts == [serial.layout] + old(layouts)
      ensures |serial.layout.data| == 1 && cleanups == [[]] + old(cleanups)
      ensures MadeFor(serial.layout, old(memory.live), memory.live, PolicyOf(stored))
      ensures Grew(old(memory.live), old(layouts), memory.live, layouts, userOwned, PolicyOf(stored))
    {
      ghost var live, blocks := memory.live, memory.blocks;
      var policy := PolicyInUse();
      serial := NewSerialArena(me, policy);
      ListPushed(HomeOf(serial.layout), MemorySize(policy, 0, SERIAL), live);
      PushGrew(live, layouts, HomeOf(serial.layout), userOwned, policy);
      NodesPushed(memory.nodes, layouts, cleanups, serial.layout);
      Push(serial, live, blocks);
    }

    method Push(serial: SerialArena, ghost live: map<Addr, Chunk>, ghost blocks: map<Addr, Block>)
      requires |serials| == |layouts| && ListOk() && AllAt(memory, serials, layouts, blocks, live)
      requires memory.Valid() && serial.memory == memory && serial.Valid() && serial !in serials
      requires forall j :: 0 <= j < |serials| ==> serials[j].owner != serial.owner
      requires MemoryGrew(live, memory.live, blocks, memory.blocks, {})
      requires var all := [serial.layout] + layouts;
               && Apart(all) && AllOwned(all, memory.live, userOwned) && PolicyKept(all[|all| - 1], stored)
               && TotalData(all) == served + SERIAL * |all| + PolicySize(stored)
               && NodesKept(memory.nodes, all, [[]] + cleanups)
      modifies this`threads, this`serials, this`layouts, this`cleanups, serial`next
      ensures Valid() && serials == [serial] + old(serials) && layouts == [serial.layout] + old(layouts)
      ensures cleanups == [[]] + old(cleanups)
    {
      serial.next := threads;
      SerialsPushed(memory, serials, layouts, live, blocks, serial);
      threads := serial;
      serials, layouts, cleanups := [serial] + serials, [serial.layout] + layouts, [[]] + cleanups;
    }

    lemma ListPushed(base: Addr, n: nat, live: map<Addr, Chunk>)
      requires |serials| == |layouts| && ListOk() && AllOwned(layouts, live, userOwned) && base !in live
               && HEADER + SERIAL <= n
      ensures var all := [First(base, n)] + layouts;
              && Apart(all) && AllOwned(all, live[base := Chunk(n, System)], userOwned)
              && PolicyKept(all[|all| - 1], stored)
              && TotalData(all) == served + SERIAL * |all| + PolicySize(stored)
    {
      var all, live' := [First(base, n)] + layouts, live[base := Chunk(n, System)];
      FirstOwned(live', base, n, System);
      assert all[1..] == layouts && [First(base, n)][1..] == [];
      OwnedPushed(layouts, First(base, n), live, live', userOwned);
      ApartPushed(layouts, First(base, n), live, userOwned);
    }

    /** The policy, while the arena is in use. */
    method PolicyInUse() returns (policy: Option<AllocationPolicy>)
      requires Listed()
      ensures policy == if stored.Some? then Some(stored.value.policy) else None
    {
      if serials != [] { LastHolds(); }
      policy := AllocPolicy();
    }

    /** Serve a request from the calling thread's own arena: its data grows by the range returned, and everything
        handed out before stays where it was. */
    method AllocateAligned(n: nat, me: nat) returns (ret: Addr, ghost k: nat)
      requires Valid() && n % 8 == 0
      modifies this, memory, serials
      ensures Valid() && served == old(served) + n && userOwned == old(userOwned) && stored == old(stored)
      ensures k < |serials| && serials[k].owner == me && Extends(old(layouts), layouts, k)
      ensures layouts[k].data == DataBefore(old(layouts), layouts, k) + [Range(ret, n)]
      ensures if |serials| == |old(serials)| then serials == old(serials) && cleanups == old(cleanups)
              else fresh(serials[0]) && serials == [serials[0]] + old(serials) && cleanups == [[]] + old(cleanups)
      ensures Grew(old(memory.live), old(layouts), memory.live, layouts, userOwned, PolicyOf(stored))
      ensures ServedAt(old(layouts), layouts, k, old(memory.live), memory.live, n, PolicyOf(stored))
    {
      hide ListOk, Sound, NodesKept, AllOwned, Foreign, EightfoldAll, ServedIn, MadeFor, ServedAt, HomeKept;
      ghost var before, live := layouts, memory.live;
      var serial;
      serial, k := GetSerialArenaFallback(me);
      var policy := PolicyInUse();
      ghost var found, foundLive := layouts, memory.live;
      ret := AllocateFrom(serial, k, n, policy);
      ExtendsFound(before, found, layouts, k, [Range(ret, n)]);
      ServedFound(before, found, layouts, k, live, foundLive, memory.live, n, PolicyOf(stored));
    }

    method AllocateFrom(serial: SerialArena, ghost k: nat, n: nat, policy: Option<AllocationPolicy>) returns (ret: Addr)
      requires Valid() && n % 8 == 0 && k < |serials| && serial == serials[k] && policy == PolicyOf(stored)
      modifies this`layouts, this`served, this`cleanups, memory`live, memory`blocks, memory`top, serial
      ensures Valid() && served == old(served) + n
      ensures cleanups == old(cleanups)
      ensures |layouts| == |old(layouts)| && layouts == old(layouts)[k := layouts[k]]
      ensures layouts[k].data == old(layouts[k]).data + [Range(ret, n)]
      ensures Grew(old(memory.live), old(layouts), memory.live, layouts, userOwned, policy)
      ensures ServedIn(old(layouts[k]), layouts[k], old(memory.live), memory.live, n, policy)
      ensures HomeKept(old(layouts[k]), layouts[k])
    {
      hide Grew, ServedIn;
      ghost var l, live, blocks := layouts[k], memory.live, memory.blocks;
      assert SerialAt(memory, serials, layouts, k, blocks, live);
      ret := serial.AllocateAligned(n, policy);
      DataHome(l, serial.head, policy, n);
      ServedGrew(live, layouts, memory.live, k, serial.layout, userOwned, policy, serial.head, n);
      NodesSame(memory.nodes, layouts, cleanups, k, serial.layout);
      Adopt(serial, k, n, live, blocks, cleanups);
    }

    /** Register a cleanup with the calling thread's own arena, in front of those registered there before. */
    method AddCleanup(elem: Addr, cleanup: nat, me: nat) returns (ghost k: nat, ghost r: Range)
      requires Valid()
      modifies this, memory, serials
      ensures Valid() && served == old(served) && userOwned == old(userOwned) && stored == old(stored)
      ensures k < |serials| && serials[k].owner == me && Extends(old(layouts), layouts, k)
      ensures layouts[k].data == DataBefore(old(layouts), layouts, k) + [r] && r.size == 0
      ensures |old(cleanups)| == |old(serials)|
      ensures if |serials| == |old(serials)| then serials == old(serials)
              else fresh(serials[0]) && serials == [serials[0]] + old(serials)
      ensures k < |old(serials)| || |serials| != |old(serials)|
      ensures cleanups == CleanupAdded(old(cleanups), k, |serials| != |old(serials)|, CleanupNode(elem, cleanup))
      ensures Grew(old(memory.live), old(layouts), memory.live, layouts, userOwned, PolicyOf(stored))
      ensures ServedAt(old(layouts), layouts, k, old(memory.live), memory.live, CLEANUP, PolicyOf(stored))
    {
      hide ListOk, Sound, NodesKept, AllOwned, Foreign, EightfoldAll, ServedIn, MadeFor, ServedAt, HomeKept;
      ghost var before, calls, live := layouts, cleanups, memory.live;
      CallsPerArena();
      var serial;
      serial, k := GetSerialArenaFallback(me);
      var policy := PolicyInUse();
      ghost var found, foundCalls, foundLive := layouts, cleanups, memory.live;
      r := AddCleanupTo(serial, k, elem, cleanup, policy);
      ExtendsFound(before, found, layouts, k, [r]);
      ServedFound(before, found, layouts, k, live, foundLive, memory.live, CLEANUP, PolicyOf(stored));
      CleanupFound(calls, foundCalls, k, CleanupNode(elem, cleanup));
    }

    lemma CallsPerArena()
      requires Valid()
      ensures |cleanups| == |layouts| == |serials|
    {
    }

    method AddCleanupTo(serial: SerialArena, ghost k: nat, elem: Addr, cleanup: nat, policy: Option<AllocationPolicy>)
      returns (ghost r: Range)
      requires Valid() && k < |serials| && serial == serials[k] && policy == PolicyOf(stored)
      modifies this`layouts, this`served, this`cleanups, memory, serial
      ensures Valid() && served == old(served) && |cleanups| == |old(cleanups)| == |serials|
      ensures cleanups == old(cleanups)[k := [CleanupNode(elem, cleanup)] + old(cleanups)[k]]
      ensures |layouts| == |old(layouts)| && layouts == old(layouts)[k := layouts[k]]
      ensures layouts[k].data == old(layouts[k]).data + [r] && r.size == 0
      ensures Grew(old(memory.live), old(layouts), memory.live, layouts, userOwned, policy)
      ensures ServedIn(old(layouts[k]), layouts[k], old(memory.live), memory.live, CLEANUP, policy)
      ensures HomeKept(old(layouts[k]), layouts[k])
    {
      hide ServedIn, Grew, ChainGrew, SameHome, PolicyKept;
      ghost var l, live, blocks, nodes := layouts[k], memory.live, memory.blocks, memory.nodes;
      assert SerialAt(memory, serials, layouts, k, blocks, live);
      ghost var node := serial.AddCleanup(elem, cleanup, policy);
      NodeHome(l, serial.head, policy, 0);
      ServedGrew(live, layouts, memory.live, k, serial.layout, userOwned, policy, serial.head, 0);
      r := serial.layout.data[|l.data|];
      SerialsChanged(memory, serials, layouts, k, live, blocks);
      ListChanged(layouts, k, serial.layout, live, memory.live, userOwned, stored);
      NodesAdded(memory, serials, nodes, layouts, cleanups, k, serial.layout, node, CleanupNode(elem, cleanup));
      Adopt(serial, k, 0, live, blocks, cleanups[k := [CleanupNode(elem, cleanup)] + cleanups[k]]);
    }

    /** The list takes over what arena k has become. */
    ghost method Adopt(serial: SerialArena, k: nat, n: nat, live: map<Addr, Chunk>, blocks: map<Addr, Block>,
                       calls: seq<seq<CleanupNode>>)
      requires |serials| == |layouts| && k < |serials| && serial == serials[k] && ListOk()
      requires memory.Valid() && serial.memory == memory && serial.Valid() && serial.next == NextOf(serials, k + 1)
      requires forall i :: 0 <= i < |serials| && i != k ==> SerialAt(memory, serials, layouts, i, blocks, live)
      requires AllOwned(layouts, live, userOwned) && ChainGrew(layouts[k], serial.layout, live, memory.live)
      requires MemoryGrew(live, memory.live, blocks, memory.blocks, Bases(layouts[k].segments))
      requires SameHome(layouts[k], serial.layout) && DataSize(serial.layout.data) == DataSize(layouts[k].data) + n
      requires NodesKept(memory.nodes, layouts[k := serial.layout], calls)
      modifies this`layouts, this`served, this`cleanups
      ensures Valid() && served == old(served) + n && layouts == old(layouts)[k := serial.layout] && cleanups == calls
    {
      SerialsChanged(memory, serials, layouts, k, live, blocks);
      ListChanged(layouts, k, serial.layout, live, memory.live, userOwned, stored);
      TotalChanged(layouts, k, serial.layout);
      layouts, served, cleanups := layouts[k := serial.layout], served + n, calls;
    }

    method SpaceAllocated() returns (total: nat)
      requires Listed()
      ensures total == TotalBlocks(layouts)
    {
      var serial := threads;
      ghost var i := 0;
      total := 0;
      while serial != null
        invariant 0 <= i <= |serials| && serial == NextOf(serials, i)
        invariant total + TotalBlocks(layouts[i..]) == TotalBlocks(layouts)
        decreases |serials| - i
      {
        assert SerialAt(memory, serials, layouts, i, memory.blocks, memory.live);
        assert layouts[i..][1..] == layouts[i + 1..];
        total := total + serial.spaceAllocated;
        serial := serial.next;
        i := i + 1;
      }
    }

    /** Exactly what callers asked for: the arena's own objects and the policy are taken off. */
    method SpaceUsed() returns (used: int)
      requires Listed()
      ensures used == served
    {
      var serial := threads;
      ghost var i := 0;
      used := 0;
      while serial != null
        invariant 0 <= i <= |serials| && serial == NextOf(serials, i)
        invariant used + TotalData(layouts[i..]) == TotalData(layouts) - SERIAL * i
        decreases |serials| - i
      {
        assert SerialAt(memory, serials, layouts, i, memory.blocks, memory.live);
        assert layouts[i..][1..] == layouts[i + 1..];
        used := used + serial.SpaceUsed();
        serial := serial.next;
        i := i + 1;
      }
      used := used - (if stored.Some? then POLICY else 0);
    }

    /** Run every arena's cleanups, in list order; memory is not released yet. */
    method CleanupList() returns (ran: seq<CleanupNode>)
      requires |layouts| == |serials| && threads == NextOf(serials, 0) && Apart(layouts)
               && CallsIn(memory.nodes, layouts)
      requires memory.Valid() && AllAt(memory, serials, layouts, memory.blocks, memory.live)
      modifies memory`blocks
      ensures memory.Valid() && AllAt(memory, serials, layouts, memory.blocks, memory.live)
      ensures ran == Calls(memory.nodes, layouts, |layouts|)
    {
      var serial := threads;
      ghost var i := 0;
      ran := [];
      while serial != null
        invariant 0 <= i <= |serials| && serial == NextOf(serials, i)
        invariant memory.Valid() && AllAt(memory, serials, layouts, memory.blocks, memory.live)
        invariant ran == Calls(memory.nodes, layouts, i)
        decreases |serials| - i
      {
        assert CallsInAt(memory.nodes, layouts, i);
        var one := CleanupOne(serial, i);
        ran := ran + one;
        serial := serial.next;
        i := i + 1;
      }
    }

    /** The functor that CleanupList applies to every arena of the list. */
    method CleanupOne(serial: SerialArena, ghost i: nat) returns (ran: seq<CleanupNode>)
      requires i < |serials| == |layouts| && serial == serials[i] && Apart(layouts)
      requires memory.Valid() && AllAt(memory, serials, layouts, memory.blocks, memory.live)
               && CallsInAt(memory.nodes, layouts, i)
      modifies memory`blocks
      ensures memory.Valid() && AllAt(memory, serials, layouts, memory.blocks, memory.live)
      ensures CallsIn(memory.nodes, layouts) ==> ran == CallsOf(memory.nodes, layouts, i)
      ensures serial.next == NextOf(serials, i + 1)
    {
      assert SerialAt(memory, serials, layouts, i, memory.blocks, memory.live);
      ghost var blocks := memory.blocks;
      ran := serial.CleanupList();
      HeadersWritten(blocks, i);
    }

    /** Arena k alone rewrote headers of its own blocks. */
    lemma HeadersWritten(blocks: map<Addr, Block>, k: nat)
      requires k < |serials| == |layouts| && Apart(layouts) && AllAt(memory, serials, layouts, blocks, memory.live)
      requires Sound(layouts[k], memory.blocks, memory.live, serials[k].Fields())
      requires MemoryGrew(memory.live, memory.live, blocks, memory.blocks, Bases(layouts[k].segments))
      ensures AllAt(memory, serials, layouts, memory.blocks, memory.live)
    {
      forall i | 0 <= i < |serials|
        ensures SerialAt(memory, serials, layouts, i, memory.blocks, memory.live)
      {
        assert SerialAt(memory, serials, layouts, i, blocks, memory.live);
        if i != k {
          ApartBoth(layouts, i, k);
          SoundKept(layouts[i], blocks, memory.blocks, memory.live, memory.live, serials[i].Fields(),
                    Bases(layouts[k].segments));
        }
      }
    }

    /** Release everything but the first block of the oldest arena, which is returned (0 when there is none). */
    method Free() returns (base: Addr, size: nat, freed: nat)
      requires Listed()
      modifies memory`live, memory`blocks
      ensures memory.Valid() && LeftOver(layouts, base, size, memory.live, userOwned)
      ensures AfterRelease(memory.live, base, userOwned) == old(memory.live) - OwnBlocks(layouts, userOwned)
      ensures freed + size == TotalBlocks(layouts)
    {
      ghost var live, blocks := memory.live, memory.blocks;
      var serial := threads;
      ghost var i := 0;
      base, size, freed := 0, 0, 0;
      while serial != null
        invariant 0 <= i <= |serials| && serial == NextOf(serials, i) && memory.Valid()
        invariant PartlyGone(layouts, i, base, size, live, blocks, memory.live, memory.blocks)
        invariant freed + size + TotalBlocks(layouts[i..]) == TotalBlocks(layouts)
        decreases |serials| - i
      {
        var f;
        base, size, f := FreeOne(serial, i, base, size, live, blocks);
        freed := freed + f;
        serial := serial.Next();
        i := i + 1;
      }
      EndOfFree(base, size, live, blocks);
    }

    /** The functor that Free applies to every arena of the list: the block kept from the arena before goes only now,
        after the list has advanced past it. */
    method FreeOne(serial: SerialArena, ghost i: nat, keep: Addr, keepSize: nat, ghost live: map<Addr, Chunk>,
                   ghost blocks: map<Addr, Block>)
      returns (base: Addr, size: nat, freed: nat)
      requires i < |serials| == |layouts| && serial == serials[i] && AllAt(memory, serials, layouts, blocks, live)
               && memory.Valid()
      requires Apart(layouts) && AllOwned(layouts, live, userOwned)
      requires PartlyGone(layouts, i, keep, keepSize, live, blocks, memory.live, memory.blocks)
      modifies memory`live, memory`blocks
      ensures memory.Valid() && PartlyGone(layouts, i + 1, base, size, live, blocks, memory.live, memory.blocks)
      ensures freed + size + TotalBlocks(layouts[i + 1..]) == keepSize + TotalBlocks(layouts[i..])
      ensures serial.memory == memory && serial.layout == layouts[i] && serial.next == NextOf(serials, i + 1)
      ensures HomeOf(layouts[i]) in memory.live
    {
      StepOfFree(i, keep, keepSize, live, blocks);
      if keep != 0 {
        memory.Release(keep, keepSize);
      }
      var b, n, f := serial.Free();
      base, size, freed := b, n, keepSize + f;
    }

    /** What one round of Free needs, and what it leaves. */
    lemma StepOfFree(i: nat, keep: Addr, size: nat, live: map<Addr, Chunk>, blocks: map<Addr, Block>)
      requires i < |serials| == |layouts| && AllAt(memory, serials, layouts, blocks, live) && memory.Valid()
      requires Apart(layouts) && AllOwned(layouts, live, userOwned)
      requires PartlyGone(layouts, i, keep, size, live, blocks, memory.live, memory.blocks)
      ensures serials[i].memory == memory && serials[i].layout == layouts[i]
              && serials[i].next == NextOf(serials, i + 1)
      ensures layouts[i].segments != []
      ensures keep != 0 ==> keep in memory.live && memory.live[keep] == Chunk(size, System)
      ensures keep == 0 ==> size == 0
      ensures var live1, blocks1 := if keep != 0 then memory.live - {keep} else memory.live,
                                    if keep != 0 then memory.blocks - {keep} else memory.blocks;
              var own := Bases(layouts[i].segments[..|layouts[i].segments| - 1]);
              && Sound(layouts[i], blocks1, live1, serials[i].Fields()) && SystemOwned(live1, layouts[i].segments)
              && PartlyGone(layouts, i + 1, HomeOf(layouts[i]), LastSize(layouts[i]), live, blocks, live1 - own,
                            blocks1 - own)
              && HomeOf(layouts[i]) in live1 - own
      ensures TotalBlocks(layouts[i..]) == BlockSize(layouts[i].segments) + TotalBlocks(layouts[i + 1..])
    {
      assert SerialAt(memory, serials, layouts, i, blocks, live);
      if i > 0 {
        assert SerialAt(memory, serials, layouts, i - 1, blocks, live);
        assert SegmentAt(layouts[i - 1].segments, |layouts[i - 1].segments| - 1);
        MayRelease(layouts, i, keep, size, live, blocks, memory.live, memory.blocks, serials[i - 1].Fields(),
                   userOwned);
      } else {
        assert memory.live == live - BasesBefore(layouts, 0) && memory.blocks == blocks - BasesBefore(layouts, 0);
      }
      BeforeVisit(layouts, i, live, blocks, serials[i].Fields(), userOwned);
      AfterVisit(layouts, i, live, blocks);
      HomeLive(layouts, i, live, userOwned);
    }

    lemma EndOfFree(keep: Addr, size: nat, live: map<Addr, Chunk>, blocks: map<Addr, Block>)
      requires |serials| == |layouts| && AllAt(memory, serials, layouts, blocks, live)
               && AllOwned(layouts, live, userOwned) && (serials == [] ==> !userOwned)
      requires PartlyGone(layouts, |layouts|, keep, size, live, blocks, memory.live, memory.blocks)
      requires 0 !in live
      ensures LeftOver(layouts, keep, size, memory.live, userOwned)
      ensures AfterRelease(memory.live, keep, userOwned) == live - OwnBlocks(layouts, userOwned)
      ensures TotalBlocks(layouts[|layouts|..]) == 0
    {
      if serials != [] {
        var n := |serials| - 1;
        assert SerialAt(memory, serials, layouts, n, blocks, live);
        LastKept(layouts, keep, size, live, blocks, memory.live, memory.blocks, serials[n].Fields(), userOwned);
      }
    }

    /** What Reset and the destructor have in common after the cleanups: release all blocks but a user-owned one,
        which is returned. The policy is read while its block is still there. */
    method ReleaseBlocks() returns (base: Addr, size: nat, freed: nat, saved: Option<AllocationPolicy>)
      requires Listed()
      modifies memory`live, memory`blocks
      ensures memory.Valid()
      ensures memory.live == old(memory.live) - OwnBlocks(layouts, userOwned)
      ensures freed == TotalBlocks(layouts)
      ensures Lent(memory.live, base, size) && (userOwned <==> base != 0)
      ensures userOwned ==> layouts != [] && IsHome(base, layouts[|layouts| - 1])
      ensures userOwned ==> MinimumSize(stored) <= size
      ensures saved == if stored.Some? then Some(stored.value.policy) else None
    {
      if serials != [] { LastHolds(); }
      base, size, freed := Free();
      saved := AllocPolicy();
      freed := freed + size;
      if !userOwned {
        GiveBack(base, size);
        base, size := 0, 0;
      }
    }

    /** The deallocator, which ignores the null pointer. */
    method GiveBack(base: Addr, size: nat)
      requires memory.Valid() && (base != 0 ==> base in memory.live && memory.live[base] == Chunk(size, System))
      modifies memory`live, memory`blocks
      ensures memory.Valid() && memory.live == AfterRelease(old(memory.live), base, false)
    {
      if base != 0 {
        memory.Release(base, size);
      }
    }

    lemma LastHolds()
      requires Listed() && serials != []
      ensures layouts[|layouts| - 1].segments != []
      ensures LastSize(layouts[|layouts| - 1]) >= MinimumSize(stored) && HomeOf(layouts[|layouts| - 1]) in memory.live
    {
      HomeLive(layouts, |layouts| - 1, memory.live, userOwned);
    }

    lemma AllCallsFound()
      requires Valid()
      ensures CallsIn(memory.nodes, layouts) && EveryCleanup(Calls(memory.nodes, layouts, |layouts|), layouts, cleanups)
    {
      forall i | 0 <= i < |layouts|
        ensures ShapedAt(layouts, i)
      {
        assert SerialAt(memory, serials, layouts, i, memory.blocks, memory.live);
      }
      CallsFound(memory.nodes, layouts, cleanups);
    }

    /** Run all cleanups, as they may use memory in any block, then release and start over; the bytes reported are what
        SpaceAllocated would have said just before. */
    method Reset(me: nat) returns (spaceAllocated: nat, ran: seq<CleanupNode>)
      requires Valid()
      modifies this, memory
      ensures Valid() && served == 0 && userOwned == old(userOwned) && forall c :: c in cleanups ==> c == []
      ensures forall i :: 0 <= i < |serials| ==> fresh(serials[i])
      ensures stored.Some? == old(stored.Some?) && (stored.Some? ==> stored.value.policy == old(stored).value.policy)
      ensures spaceAllocated == TotalBlocks(old(layouts))
      ensures EveryCleanup(ran, old(layouts), old(cleanups))
      ensures userOwned ==> |layouts| == 1 && layouts[0].segments != [] && old(layouts) != []
                            && IsHome(HomeOf(layouts[0]), old(layouts)[|old(layouts)| - 1])
      ensures Restarted(old(memory.live) - OwnBlocks(old(layouts), old(userOwned)), memory.live, layouts, stored,
                        userOwned)
    {
      hide Sound, NodesKept, EveryCleanup, Restarted, EightfoldAll, Foreign;
      AllCallsFound();
      ran := CleanupList();
      var base, size, freed, saved := ReleaseBlocks();
      spaceAllocated := freed;
      if saved.Some? {
        InitializeWithPolicy(base, size, saved.value, me);
      } else {
        InitializeFrom(base, size, me);
      }
    }

    /** The destructor gives back every block it must, each once. */
    method Destroy() returns (ran: seq<CleanupNode>)
      requires Valid()
      modifies memory`live, memory`blocks
      ensures memory.Valid() && EveryCleanup(ran, layouts, cleanups)
      ensures memory.live == old(memory.live) - OwnBlocks(layouts, userOwned)
    {
      AllCallsFound();
      ran := CleanupList();
      var base, size, freed, saved := ReleaseBlocks();
    }
  }

  ghost predicate IsHome(base: Addr, l: Layout) {
    l.segments != [] && base == HomeOf(l)
  }

  /** After Reset: nothing new, except a first block for the policy when the user lent none. */
  ghost predicate Restarted(kept: map<Addr, Chunk>, live: map<Addr, Chunk>, layouts: seq<Layout>,
                            stored: Option<StoredPolicy>, userOwned: bool) {
    if stored.Some? && !userOwned then
      |layouts| == 1 && layouts[0].segments != [] && HomeOf(layouts[0]) !in kept
      && live == kept[HomeOf(layouts[0]) := Chunk(MemorySize(Some(stored.value.policy), 0, MINIMUM), System)]
    else live == kept
  }

  /** Arena i of the list, as it is in a memory with these blocks. */
  ghost predicate SerialAt(memory: Memory, serials: seq<SerialArena>, layouts: seq<Layout>, i: nat,
                           blocks: map<Addr, Block>, live: map<Addr, Chunk>)
    requires i < |serials| && |layouts| == |serials|
    reads serials[i]
  {
    && serials[i].memory == memory && serials[i].layout == layouts[i] && serials[i].next == NextOf(serials, i + 1)
    && Sound(layouts[i], blocks, live, serials[i].Fields())
  }

  ghost predicate AllAt(memory: Memory, serials: seq<SerialArena>, layouts: seq<Layout>,
                        blocks: map<Addr, Block>, live: map<Addr, Chunk>)
    requires |layouts| == |serials|
    reads serials
  {
    forall i :: 0 <= i < |serials| ==> SerialAt(memory, serials, layouts, i, blocks, live)
  }

  function NextOf(serials: seq<SerialArena>, i: nat): SerialArena? {
    if i < |serials| then serials[i] else null
  }

  /** A policy that is not the one IsDefault recognises is copied into the arena. */
  function Keeps(policy: Option<AllocationPolicy>): bool {
    policy.Some? && !IsDefault(policy.value)
  }

  /** AllocationPolicy::IsDefault compares the start size with the default maximum. */
  function IsDefault(policy: AllocationPolicy): bool {
    policy.startBlockSize == DEFAULT_POLICY.maxBlockSize && policy.maxBlockSize == DEFAULT_POLICY.maxBlockSize
  }

  ghost predicate Lent(live: map<Addr, Chunk>, mem: Addr, size: nat) {
    mem != 0 ==> mem in live && live[mem] == Chunk(size, User)
  }

  lemma FirstOwned(live: map<Addr, Chunk>, base: Addr, size: nat, first: Ownership)
    requires base in live && live[base] == Chunk(size, first) && HEADER + SERIAL <= size
    ensures Owned(First(base, size), live, first) && HomeOf(First(base, size)) == base
    ensures TotalData([First(base, size)]) == SERIAL
  {
    var l := First(base, size);
    assert l.data[..0] == [] && [l][1..] == [];
    assert DataSize(l.data) == SERIAL;
  }

  /** The policy's own allocation in a block of at least the minimum size cannot fail. */
  lemma PolicyFits(base: Addr, size: nat)
    requires MINIMUM <= size
    ensures POLICY <= Room(First(base, size))
  {
    assert AlignDown8(size) >= MINIMUM;
  }

  lemma PolicyOwned(live: map<Addr, Chunk>, base: Addr, size: nat, first: Ownership)
    requires base in live && live[base] == Chunk(size, first) && MINIMUM <= size && base % 8 == 0
    ensures var l := Bump(First(base, size), POLICY);
            && Owned(l, live, first) && HomeOf(l) == base && LastSize(l) == size
            && Inside(l.segments[0], Range(base + HEADER + SERIAL, POLICY)) && TotalData([l]) == SERIAL + POLICY
  {
    FirstOwned(live, base, size, first);
    var l := First(base, size);
    SameBases(l, Bump(l, POLICY));
    DataGrows(l.data, Range(base + HEADER + SERIAL, POLICY));
    assert [l][1..] == [] && [Bump(l, POLICY)][1..] == [];
  }

  lemma SoundKept(l: Layout, blocks: map<Addr, Block>, blocks': map<Addr, Block>, live: map<Addr, Chunk>,
                  live': map<Addr, Chunk>, r: Registers, own: set<Addr>)
    requires Sound(l, blocks, live, r) && MemoryGrew(live, live', blocks, blocks', own) && Bases(l.segments) !! own
    ensures Sound(l, blocks', live', r)
  {
    forall i | 0 <= i < |l.segments|
      ensures LinkedAt(blocks', live', l.segments, i)
    {
      assert LinkedAt(blocks, live, l.segments, i);
      BasesMember(l.segments, i);
    }
  }

  /** The first i arenas are gone, except for the block `keep` that holds the arena visited last. */
  ghost predicate PartlyGone(layouts: seq<Layout>, i: nat, keep: Addr, size: nat, live: map<Addr, Chunk>,
                             blocks: map<Addr, Block>,
                             live': map<Addr, Chunk>, blocks': map<Addr, Block>) {
    && i <= |layouts|
    && live' == live - (BasesBefore(layouts, i) - {keep}) && blocks' == blocks - (BasesBefore(layouts, i) - {keep})
    && (if i == 0 then keep == 0 && size == 0
        else layouts[i - 1].segments != [] && keep == HomeOf(layouts[i - 1]) && size == LastSize(layouts[i - 1]))
  }

  /** The block kept from the previous arena is still there and the system's, so it can be released, and then the
      first i arenas are gone entirely. */
  lemma MayRelease(layouts: seq<Layout>, i: nat, keep: Addr, size: nat, live: map<Addr, Chunk>,
                   blocks: map<Addr, Block>,
                   live': map<Addr, Chunk>, blocks': map<Addr, Block>, r: Registers, userOwned: bool)
    requires i < |layouts| && keep != 0 && PartlyGone(layouts, i, keep, size, live, blocks, live', blocks')
    requires AllOwned(layouts, live, userOwned) && Sound(layouts[i - 1], blocks, live, r)
    ensures keep in live' && live'[keep] == Chunk(size, System)
    ensures live' - {keep} == live - BasesBefore(layouts, i) && blocks' - {keep} == blocks - BasesBefore(layouts, i)
  {
    var l := layouts[i - 1];
    BasesMember(l.segments, |l.segments| - 1);
    assert LinkedAt(blocks, live, l.segments, |l.segments| - 1);
    assert OwnedAt(layouts, live, userOwned, i - 1);
  }

  lemma {:induction false} BeforeApart(layouts: seq<Layout>, i: nat, k: nat)
    requires Apart(layouts) && i <= k < |layouts|
    ensures BasesBefore(layouts, i) !! Bases(layouts[k].segments)
  {
    if i > 0 {
      BeforeApart(layouts, i - 1, k);
      ApartBoth(layouts, i - 1, k);
    }
  }

  lemma SoundWithout(l: Layout, gone: set<Addr>, blocks: map<Addr, Block>, live: map<Addr, Chunk>, r: Registers)
    requires Sound(l, blocks, live, r) && gone !! Bases(l.segments)
    ensures Sound(l, blocks - gone, live - gone, r)
  {
    forall i | 0 <= i < |l.segments|
      ensures LinkedAt(blocks - gone, live - gone, l.segments, i)
    {
      assert LinkedAt(blocks, live, l.segments, i);
      BasesMember(l.segments, i);
    }
  }

  lemma OwnedBySystem(l: Layout, gone: set<Addr>, live: map<Addr, Chunk>, first: Ownership)
    requires LayoutOk(l) && Owned(l, live, first) && gone !! Bases(l.segments)
    ensures SystemOwned(live - gone, l.segments)
  {
    BaseDistinct(l, |l.segments| - 1);
    forall i | 0 <= i < |l.segments| - 1
      ensures l.segments[i].base in live - gone && live[l.segments[i].base].ownership == System
    {
      BasesMember(l.segments, i);
    }
  }

  /** With the arenas before it gone, arena i is as sound as it was. */
  lemma BeforeVisit(layouts: seq<Layout>, i: nat, live: map<Addr, Chunk>, blocks: map<Addr, Block>, r: Registers,
                    userOwned: bool)
    requires i < |layouts| && Apart(layouts) && AllOwned(layouts, live, userOwned) && Sound(layouts[i], blocks, live, r)
    ensures var gone := BasesBefore(layouts, i);
            Sound(layouts[i], blocks - gone, live - gone, r) && SystemOwned(live - gone, layouts[i].segments)
  {
    BeforeApart(layouts, i, i);
    SoundWithout(layouts[i], BasesBefore(layouts, i), blocks, live, r);
    assert OwnedAt(layouts, live, userOwned, i);
    OwnedBySystem(layouts[i], BasesBefore(layouts, i), live, FirstOwner(userOwned, i, |layouts|));
  }

  /** Freeing arena i leaves its first block, and nothing else of the first i + 1 arenas. */
  lemma AfterVisit(layouts: seq<Layout>, i: nat, live: map<Addr, Chunk>, blocks: map<Addr, Block>)
    requires i < |layouts| && Apart(layouts) && LayoutOk(layouts[i])
    ensures var l := layouts[i];
            var gone, own := BasesBefore(layouts, i), Bases(l.segments[..|l.segments| - 1]);
            && live - gone - own == live - (BasesBefore(layouts, i + 1) - {HomeOf(l)})
            && blocks - gone - own == blocks - (BasesBefore(layouts, i + 1) - {HomeOf(l)})
    ensures TotalBlocks(layouts[i..]) == BlockSize(layouts[i].segments) + TotalBlocks(layouts[i + 1..])
  {
    var l := layouts[i];
    BeforeApart(layouts, i, i);
    BaseDistinct(l, |l.segments| - 1);
    BasesPush(l.segments, |l.segments| - 1);
    assert l.segments[..|l.segments|] == l.segments;
    BasesMember(l.segments, |l.segments| - 1);
    assert layouts[i..][1..] == layouts[i + 1..];
  }

  /** The blocks the arena must give back: all of them, except a first block lent by the user. */
  function OwnBlocks(layouts: seq<Layout>, userOwned: bool): set<Addr> {
    if layouts == [] || layouts[|layouts| - 1].segments == [] || !userOwned then BasesBefore(layouts, |layouts|)
    else BasesBefore(layouts, |layouts|) - {HomeOf(layouts[|layouts| - 1])}
  }

  /** What Free returns: the first block of the oldest arena, still live, or nothing. */
  ghost predicate LeftOver(layouts: seq<Layout>, base: Addr, size: nat, live: map<Addr, Chunk>, userOwned: bool) {
    if layouts == [] then base == 0 && size == 0
    else layouts[|layouts| - 1].segments != [] && base == HomeOf(layouts[|layouts| - 1])
         && size == LastSize(layouts[|layouts| - 1])
         && base != 0 && base in live && live[base] == Chunk(size, if userOwned then User else System)
  }

  /** The live memory once a left-over block that is not the user's is released too. */
  function AfterRelease(live: map<Addr, Chunk>, base: Addr, userOwned: bool): map<Addr, Chunk> {
    if userOwned || base == 0 then live else live - {base}
  }

  lemma LastKept(layouts: seq<Layout>, keep: Addr, size: nat, live: map<Addr, Chunk>, blocks: map<Addr, Block>,
                 live': map<Addr, Chunk>, blocks': map<Addr, Block>, r: Registers, userOwned: bool)
    requires layouts != [] && PartlyGone(layouts, |layouts|, keep, size, live, blocks, live', blocks')
    requires AllOwned(layouts, live, userOwned) && Sound(layouts[|layouts| - 1], blocks, live, r)
    ensures LeftOver(layouts, keep, size, live', userOwned)
    ensures AfterRelease(live', keep, userOwned) == live - OwnBlocks(layouts, userOwned)
  {
    var l := layouts[|layouts| - 1];
    BasesMember(l.segments, |l.segments| - 1);
    assert LinkedAt(blocks, live, l.segments, |l.segments| - 1);
    assert SegmentAt(l.segments, |l.segments| - 1);
    assert OwnedAt(layouts, live, userOwned, |layouts| - 1);
  }

  lemma HomeLive(layouts: seq<Layout>, i: nat, live: map<Addr, Chunk>, userOwned: bool)
    requires i < |layouts| && AllOwned(layouts, live, userOwned)
    ensures layouts[i].segments != [] && HomeOf(layouts[i]) in live
  {
    assert OwnedAt(layouts, live, userOwned, i);
    BasesMember(layouts[i].segments, |layouts[i].segments| - 1);
  }

  /** The arenas already in the list are untouched by a push in front of them. */
  lemma SerialsPushed(memory: Memory, serials: seq<SerialArena>, layouts: seq<Layout>, live: map<Addr, Chunk>,
                      blocks: map<Addr, Block>, serial: SerialArena)
    requires |serials| == |layouts| && AllAt(memory, serials, layouts, blocks, live)
    requires serial.memory == memory && serial.next == NextOf(serials, 0) && serial.Valid()
    requires MemoryGrew(live, memory.live, blocks, memory.blocks, {})
    ensures AllAt(memory, [serial] + serials, [serial.layout] + layouts, memory.blocks, memory.live)
  {
    var all, shapes := [serial] + serials, [serial.layout] + layouts;
    forall i | 0 <= i < |all|
      ensures SerialAt(memory, all, shapes, i, memory.blocks, memory.live)
    {
      if i > 0 {
        assert SerialAt(memory, serials, layouts, i - 1, blocks, live);
        SoundKept(layouts[i - 1], blocks, memory.blocks, live, memory.live, serials[i - 1].Fields(), {});
        assert all[i] == serials[i - 1] && shapes[i] == layouts[i - 1];
      }
    }
  }

  lemma NoNodesYet(nodes: map<int, CleanupNode>, l: Layout)
    requires |l.segments| == 1 && l.segments[0].nodes == 0
    ensures NodesKept(nodes, [l], [[]])
  {
    assert l.segments[1..] == [];
    assert NodesKeptAt(nodes, [l], [[]], 0);
  }

  lemma NodesPushed(nodes: map<int, CleanupNode>, layouts: seq<Layout>, cleanups: seq<seq<CleanupNode>>, l: Layout)
    requires |l.segments| == 1 && l.segments[0].nodes == 0 && NodesKept(nodes, layouts, cleanups)
    ensures NodesKept(nodes, [l] + layouts, [[]] + cleanups)
  {
    var layouts', cleanups' := [l] + layouts, [[]] + cleanups;
    forall i | 0 <= i < |layouts'|
      ensures NodesKeptAt(nodes, layouts', cleanups', i)
    {
      if i > 0 {
        assert NodesKeptAt(nodes, layouts, cleanups, i - 1);
      } else {
        assert l.segments[1..] == [];
      }
    }
  }

  lemma OwnedPushed(layouts: seq<Layout>, l: Layout, live: map<Addr, Chunk>, live': map<Addr, Chunk>, userOwned: bool)
    requires AllOwned(layouts, live, userOwned) && (layouts == [] ==> !userOwned)
    requires Owned(l, live', System) && forall a :: a in live ==> a in live' && live'[a] == live[a]
    ensures AllOwned([l] + layouts, live', userOwned)
  {
    var all := [l] + layouts;
    forall i | 0 <= i < |all|
      ensures OwnedAt(all, live', userOwned, i)
    {
      if i > 0 {
        assert OwnedAt(layouts, live, userOwned, i - 1);
        assert all[i] == layouts[i - 1];
      }
    }
  }

  lemma ApartPushed(layouts: seq<Layout>, l: Layout, live: map<Addr, Chunk>, userOwned: bool)
    requires Apart(layouts) && AllOwned(layouts, live, userOwned)
    requires forall b :: b in Bases(l.segments) ==> b !in live
    ensures Apart([l] + layouts)
  {
    var all := [l] + layouts;
    forall i, j | 0 <= i < j < |all|
      ensures ListApartAt(all, i, j)
    {
      if i > 0 {
        assert ListApartAt(layouts, i - 1, j - 1);
      } else {
        assert OwnedAt(layouts, live, userOwned, j - 1);
      }
    }
  }

  ghost predicate ShapedAt(layouts: seq<Layout>, i: nat)
    requires i < |layouts|
  {
    LayoutOk(layouts[i])
  }

  ghost predicate Shaped(layouts: seq<Layout>) {
    forall i :: 0 <= i < |layouts| ==> ShapedAt(layouts, i)
  }

  lemma CallsFound(nodes: map<int, CleanupNode>, layouts: seq<Layout>, cleanups: seq<seq<CleanupNode>>)
    requires NodesKept(nodes, layouts, cleanups) && Shaped(layouts)
    ensures CallsIn(nodes, layouts) && EveryCleanup(Calls(nodes, layouts, |layouts|), layouts, cleanups)
  {
    forall i | 0 <= i < |layouts|
      ensures CallsInAt(nodes, layouts, i)
    {
      assert NodesKeptAt(nodes, layouts, cleanups, i) && ShapedAt(layouts, i);
      VisitedAmongSlots(nodes, layouts[i].segments);
    }
    CallsAreFlatIff(nodes, layouts, cleanups, |layouts|);
  }

  lemma CallsOfOne(nodes: map<int, CleanupNode>, layouts: seq<Layout>, cleanups: seq<seq<CleanupNode>>, i: nat)
    requires NodesKept(nodes, layouts, cleanups) && CallsIn(nodes, layouts) && Shaped(layouts) && i < |layouts|
    ensures |CallsOf(nodes, layouts, i)| <= |cleanups[i]|
    ensures |CallsOf(nodes, layouts, i)| == |cleanups[i]| <==> CountedAt(layouts, i)
    ensures CountedAt(layouts, i) ==> CallsOf(nodes, layouts, i) == cleanups[i]
  {
    assert NodesKeptAt(nodes, layouts, cleanups, i) && ShapedAt(layouts, i) && CallsInAt(nodes, layouts, i);
    var segments := layouts[i].segments;
    VisitedShorter(segments);
    NodesAtLength(nodes, AllVisited(segments));
    NodesAtLength(nodes, AllSlots(segments));
  }

  lemma {:induction false} CallsAreFlatIff(nodes: map<int, CleanupNode>, layouts: seq<Layout>,
                                           cleanups: seq<seq<CleanupNode>>, i: nat)
    requires NodesKept(nodes, layouts, cleanups) && CallsIn(nodes, layouts) && Shaped(layouts) && i <= |layouts|
    ensures |Calls(nodes, layouts, i)| <= |Flat(cleanups, i)|
    ensures |Calls(nodes, layouts, i)| == |Flat(cleanups, i)| <==> CountedTo(layouts, i)
    ensures Calls(nodes, layouts, i) == Flat(cleanups, i) <==> CountedTo(layouts, i)
  {
    hide CallsOf, CountedAt, NodesKept, Shaped;
    if i > 0 {
      CallsOfOne(nodes, layouts, cleanups, i - 1);
      CallsAreFlatIff(nodes, layouts, cleanups, i - 1);
      assert CountedTo(layouts, i) <==> CountedTo(layouts, i - 1) && CountedAt(layouts, i - 1);
    }
  }

  /** Block sizes that are multiples of 8 let every node be counted. */
  lemma EightfoldCounted(layouts: seq<Layout>)
    requires forall i :: 0 <= i < |layouts| ==> ShapedAt(layouts, i) && EightfoldBlocks(layouts[i].segments)
    ensures CountedTo(layouts, |layouts|)
  {
    forall i | 0 <= i < |layouts|
      ensures CountedAt(layouts, i)
    {
      assert ShapedAt(layouts, i);
      EightfoldSizesCount(layouts[i]);
      CleanupsAllVisitedIff(layouts[i]);
    }
  }

  // ----- one arena of the list changed -----

  /** The block an arena was made in is still its last, with at least the data it had. */
  ghost predicate SameHome(l: Layout, l': Layout) {
    l.segments != [] && l'.segments != [] &&
    var g, g' := l.segments[|l.segments| - 1], l'.segments[|l'.segments| - 1];
    g'.base == g.base && g'.size == g.size && g.dataEnd <= g'.dataEnd
  }

  lemma DataHome(l: Layout, base: Addr, policy: Option<AllocationPolicy>, n: nat)
    requires l.segments != []
    ensures SameHome(l, WithData(l, base, policy, n))
    ensures AllSlots(WithData(l, base, policy, n).segments) == AllSlots(l.segments)
    ensures DataSize(WithData(l, base, policy, n).data) == DataSize(l.data) + n
  {
    RoomySlots(l, base, policy, n);
    SlotsAfterOther(Roomy(l, base, policy, n), n, 0, 0);
    DataGrows(l.data, Range(Roomy(l, base, policy, n).segments[0].dataEnd, n));
  }

  lemma NodeHome(l: Layout, base: Addr, policy: Option<AllocationPolicy>, n: nat)
    requires l.segments != []
    ensures SameHome(l, WithNode(l, base, policy, n))
    ensures WithNode(l, base, policy, n).data
            == l.data + [Range(Roomy(l, base, policy, n + CLEANUP).segments[0].dataEnd, n)]
    ensures DataSize(WithNode(l, base, policy, n).data) == DataSize(l.data) + n
  {
    DataGrows(l.data, Range(Roomy(l, base, policy, n + CLEANUP).segments[0].dataEnd, n));
  }

  lemma SerialsChanged(memory: Memory, serials: seq<SerialArena>, layouts: seq<Layout>, k: nat,
                       live: map<Addr, Chunk>, blocks: map<Addr, Block>)
    requires k < |serials| == |layouts| && Apart(layouts)
    requires forall i :: 0 <= i < |serials| && i != k ==> SerialAt(memory, serials, layouts, i, blocks, live)
    requires serials[k].memory == memory && serials[k].Valid() && serials[k].next == NextOf(serials, k + 1)
    requires MemoryGrew(live, memory.live, blocks, memory.blocks, Bases(layouts[k].segments))
    ensures AllAt(memory, serials, layouts[k := serials[k].layout], memory.blocks, memory.live)
  {
    var layouts' := layouts[k := serials[k].layout];
    forall i | 0 <= i < |serials|
      ensures SerialAt(memory, serials, layouts', i, memory.blocks, memory.live)
    {
      if i != k {
        assert SerialAt(memory, serials, layouts, i, blocks, live);
        ApartBoth(layouts, i, k);
        SoundKept(layouts[i], blocks, memory.blocks, live, memory.live, serials[i].Fields(),
                  Bases(layouts[k].segments));
      }
    }
  }

  lemma ListChanged(layouts: seq<Layout>, k: nat, l': Layout, live: map<Addr, Chunk>, live': map<Addr, Chunk>,
                    userOwned: bool, stored: Option<StoredPolicy>)
    requires k < |layouts| && Apart(layouts) && AllOwned(layouts, live, userOwned)
             && PolicyKept(layouts[|layouts| - 1], stored)
    requires ChainGrew(layouts[k], l', live, live') && SameHome(layouts[k], l')
    requires forall a :: a in live ==> a in live' && live'[a] == live[a]
    ensures Apart(layouts[k := l']) && AllOwned(layouts[k := l'], live', userOwned)
    ensures PolicyKept(layouts[k := l'][|layouts| - 1], stored)
  {
    var all := layouts[k := l'];
    forall i | 0 <= i < |all|
      ensures OwnedAt(all, live', userOwned, i)
    {
      assert OwnedAt(layouts, live, userOwned, i);
    }
    forall i, j | 0 <= i < j < |all|
      ensures ListApartAt(all, i, j)
    {
      assert ListApartAt(layouts, i, j) && OwnedAt(layouts, live, userOwned, i) && OwnedAt(layouts, live, userOwned, j);
    }
  }

  lemma PolicySizeEightfold(policy: AllocationPolicy)
    ensures Eightfold(Some(policy)) ==> MemorySize(Some(policy), 0, MINIMUM) % 8 == 0
  {
    if Eightfold(Some(policy)) { MemorySizeEightfold(Some(policy), 0, MINIMUM); }
  }

  /** A list of one arena in one block owns that block, unless it is the user's. */
  lemma OnlyFirst(layouts: seq<Layout>, live: map<Addr, Chunk>, userOwned: bool)
    requires |layouts| == 1 && |layouts[0].segments| == 1
    ensures OwnBlocks(layouts, userOwned) == if userOwned then {} else {HomeOf(layouts[0])}
    ensures layouts[0].segments[0].size % 8 == 0 ==> EightfoldAll(layouts)
  {
    var l := layouts[0];
    assert BasesBefore(layouts, 1) == BasesBefore(layouts, 0) + Bases(l.segments);
    assert Bases(l.segments) == {l.segments[0].base} by { BasesMember(l.segments, 0); }
    if l.segments[0].size % 8 == 0 { assert EightfoldAt(layouts, 0); }
  }

  /** What a start in this block does: nothing becomes live that will not be given back, the user's block is the first
      one, and block sizes are as the caller's sizes and policy. */
  ghost predicate Started(mem: Addr, size: nat, policy: Option<AllocationPolicy>, live: map<Addr, Chunk>,
                          live': map<Addr, Chunk>, layouts: seq<Layout>, stored: Option<StoredPolicy>, userOwned: bool)
  {
    && Foreign(live', layouts, userOwned) == live && Restarted(live, live', layouts, stored, userOwned)
    && (userOwned ==> |layouts| == 1 && IsHome(mem, layouts[0]))
    && (Eightfold(policy) && (userOwned ==> size % 8 == 0) ==> EightfoldAll(layouts))
  }

  lemma StartedFrom(mem: Addr, size: nat, live: map<Addr, Chunk>, userOwned: bool)
    requires userOwned ==> HEADER + SERIAL <= size
    ensures Started(mem, size, None, live, live, if userOwned then [First(mem, size)] else [], None, userOwned)
  {
    if userOwned { OnlyFirst([First(mem, size)], live, true); }
  }

  lemma StartedWithPolicy(mem: Addr, size: nat, policy: AllocationPolicy, live: map<Addr, Chunk>,
                          live': map<Addr, Chunk>, l: Layout, stored: Option<StoredPolicy>, userOwned: bool)
    requires l.segments != [] && stored.Some? && stored.value.policy == policy
    requires if userOwned then MINIMUM <= size && l == Bump(First(mem, size), POLICY) && live' == live
             else var n := MemorySize(Some(policy), 0, MINIMUM);
                  HomeOf(l) !in live && live' == live[HomeOf(l) := Chunk(n, System)]
                  && l == Bump(First(HomeOf(l), n), POLICY)
    ensures Started(mem, size, Some(policy), live, live', [l], stored, userOwned)
  {
    PolicySizeEightfold(policy);
    OnlyFirst([l], live', userOwned);
  }

  lemma {:induction false} BasesFront(l: Layout, layouts: seq<Layout>, n: nat)
    requires n <= |layouts|
    ensures BasesBefore([l] + layouts, n + 1) == Bases(l.segments) + BasesBefore(layouts, n)
  {
    if n > 0 {
      BasesFront(l, layouts, n - 1);
      assert ([l] + layouts)[n] == layouts[n - 1];
    } else {
      assert BasesBefore([l] + layouts, 0) == {} && ([l] + layouts)[0] == l;
    }
  }

  lemma {:induction false} BasesUpdated(layouts: seq<Layout>, k: nat, l': Layout, n: nat)
    requires k < |layouts| && n <= |layouts| && Bases(layouts[k].segments) <= Bases(l'.segments)
    ensures BasesBefore(layouts[k := l'], n) == BasesBefore(layouts, n) + if k < n then Bases(l'.segments) else {}
  {
    if n > 0 { BasesUpdated(layouts, k, l', n - 1); }
  }

  /** A new arena in a new block at `base`. */
  lemma PushGrew(live: map<Addr, Chunk>, layouts: seq<Layout>, base: Addr, userOwned: bool,
                 policy: Option<AllocationPolicy>)
    requires base !in live && AllOwned(layouts, live, userOwned) && (layouts == [] ==> !userOwned)
    ensures var n := MemorySize(policy, 0, SERIAL);
            Grew(live, layouts, live[base := Chunk(n, System)], [First(base, n)] + layouts, userOwned, policy)
  {
    var n := MemorySize(policy, 0, SERIAL);
    var l := First(base, n);
    var all := [l] + layouts;
    BasesFront(l, layouts, |layouts|);
    assert Bases(l.segments) == {base} by { BasesMember(l.segments, 0); }
    if layouts != [] {
      HomeLive(layouts, |layouts| - 1, live, userOwned);
      assert all[|all| - 1] == layouts[|layouts| - 1];
    }
    assert OwnBlocks(all, userOwned) == OwnBlocks(layouts, userOwned) + {base};
    if Eightfold(policy) && EightfoldAll(layouts) {
      MemorySizeEightfold(policy, 0, SERIAL);
      forall i | 0 <= i < |all|
        ensures EightfoldAt(all, i)
      {
        if i > 0 { assert EightfoldAt(layouts, i - 1); }
      }
    }
  }

  /** Arena k of the list has become l'. */
  lemma OneGrew(live: map<Addr, Chunk>, layouts: seq<Layout>, live': map<Addr, Chunk>, k: nat, l': Layout,
                userOwned: bool)
    requires k < |layouts| && ChainGrew(layouts[k], l', live, live') && AllOwned(layouts, live, userOwned)
    requires forall a :: a in live ==> a in live' && live'[a] == live[a]
    ensures Foreign(live', layouts[k := l'], userOwned) == Foreign(live, layouts, userOwned)
    ensures EightfoldAll(layouts) && EightfoldBlocks(l'.segments) ==> EightfoldAll(layouts[k := l'])
  {
    var all, last := layouts[k := l'], |layouts| - 1;
    BasesUpdated(layouts, k, l', |layouts|);
    HomeLive(layouts, last, live, userOwned);
    OwnUpdated(layouts, live, live', k, l', userOwned);
    if EightfoldAll(layouts) && EightfoldBlocks(l'.segments) {
      forall i | 0 <= i < |all|
        ensures EightfoldAt(all, i)
      {
        assert EightfoldAt(layouts, i);
      }
    }
  }

  lemma RoomyEightfold(l: Layout, base: Addr, policy: Option<AllocationPolicy>, n: nat)
    requires l.segments != [] && Eightfold(policy) && EightfoldBlocks(l.segments) && n % 8 == 0
    ensures EightfoldBlocks(Roomy(l, base, policy, n).segments)
  {
    MemorySizeEightfold(policy, l.segments[0].size, n);
  }

  /** Arena k has served a request for n bytes, with or without a cleanup node. */
  lemma ServedGrew(live: map<Addr, Chunk>, layouts: seq<Layout>, live': map<Addr, Chunk>, k: nat, l': Layout,
                   userOwned: bool,
                   policy: Option<AllocationPolicy>, base: Addr, n: nat)
    requires k < |layouts| && layouts[k].segments != [] && n % 8 == 0
    requires l' == WithData(layouts[k], base, policy, n) || l' == WithNode(layouts[k], base, policy, n)
    requires ChainGrew(layouts[k], l', live, live') && AllOwned(layouts, live, userOwned)
    requires forall a :: a in live ==> a in live' && live'[a] == live[a]
    ensures Grew(live, layouts, live', layouts[k := l'], userOwned, policy)
  {
    OneGrew(live, layouts, live', k, l', userOwned);
    if Eightfold(policy) && EightfoldAll(layouts) {
      assert EightfoldAt(layouts, k);
      RoomyEightfold(layouts[k], base, policy, n);
      SumOfEights(n, CLEANUP);
      RoomyEightfold(layouts[k], base, policy, n + CLEANUP);
    }
  }

  lemma OwnUpdated(layouts: seq<Layout>, live: map<Addr, Chunk>, live': map<Addr, Chunk>, k: nat, l': Layout,
                   userOwned: bool)
    requires k < |layouts| && ChainGrew(layouts[k], l', live, live')
    requires forall a :: a in live ==> a in live' && live'[a] == live[a]
    requires BasesBefore(layouts[k := l'], |layouts|) == BasesBefore(layouts, |layouts|) + Bases(l'.segments)
    requires layouts[|layouts| - 1].segments != [] && HomeOf(layouts[|layouts| - 1]) in live
    ensures Foreign(live', layouts[k := l'], userOwned) == Foreign(live, layouts, userOwned)
  {
    hide BasesBefore, Bases;
    var all, home := layouts[k := l'], HomeOf(layouts[|layouts| - 1]);
    assert all[|all| - 1].segments != [] && HomeOf(all[|all| - 1]) == home;
    BasesInBefore(layouts, k, |layouts|);
    SameRest(live, live', BasesBefore(layouts, |layouts|), Bases(layouts[k].segments), Bases(l'.segments),
             if userOwned then {home} else {});
  }

  /** Of what is live, a set of own blocks that grew by new ones leaves the same rest. */
  lemma SameRest(live: map<Addr, Chunk>, live': map<Addr, Chunk>, own: set<Addr>, before: set<Addr>, after: set<Addr>,
                 kept: set<Addr>)
    requires before <= own && kept <= live.Keys && live'.Keys <= live.Keys + after
    requires forall b :: b in after && b !in before ==> b !in live
    requires forall a :: a in live ==> a in live' && live'[a] == live[a]
    ensures live' - (own + after - kept) == live - (own - kept)
    ensures live' - (own + after) == live - own
  {
  }

  lemma {:induction false} BasesInBefore(layouts: seq<Layout>, k: nat, n: nat)
    requires k < n <= |layouts|
    ensures Bases(layouts[k].segments) <= BasesBefore(layouts, n)
  {
    if k < n - 1 { BasesInBefore(layouts, k, n - 1); }
  }

  /** Finding or making arena k and then adding `more` to its data extends the list. */
  lemma ExtendsFound(before: seq<Layout>, found: seq<Layout>, after: seq<Layout>, k: nat, more: seq<Range>)
    requires k < |found| == |after| && after == found[k := after[k]] && after[k].data == found[k].data + more
    requires found == before || (k == 0 && found == [found[0]] + before && |found[0].data| == 1)
    ensures Extends(before, after, k) && after[k].data == DataBefore(before, after, k) + more
  {
    if |found| != |before| { assert after == [after[0]] + before; }
  }

  lemma ServedFound(before: seq<Layout>, found: seq<Layout>, after: seq<Layout>, k: nat, live: map<Addr, Chunk>,
                    foundLive: map<Addr, Chunk>, live': map<Addr, Chunk>, need: nat, policy: Option<AllocationPolicy>)
    requires k < |found| == |after| && ServedIn(found[k], after[k], foundLive, live', need, policy)
    requires if |found| == |before| then found[k] == before[k] && foundLive == live
             else MadeFor(found[k], live, foundLive, policy) && HomeKept(found[k], after[k])
    ensures ServedAt(before, after, k, live, live', need, policy)
  {
  }

  ghost predicate HomeKept(l: Layout, l': Layout) {
    l.segments != [] && l'.segments != [] && HomeOf(l') == HomeOf(l)
  }

  lemma CleanupFound(before: seq<seq<CleanupNode>>, found: seq<seq<CleanupNode>>, k: nat, x: CleanupNode)
    requires k < |found| && (found == before || (k == 0 && found == [[]] + before))
    ensures |found| == |before| || |found| == |before| + 1
    ensures found[k := [x] + found[k]] == CleanupAdded(before, k, |found| != |before|, x)
  {
    if |found| != |before| { assert [x] + [] == [x]; }
  }

  lemma {:induction false} TotalChanged(layouts: seq<Layout>, k: nat, l': Layout)
    requires k < |layouts|
    ensures TotalData(layouts[k := l']) + DataSize(layouts[k].data) == TotalData(layouts) + DataSize(l'.data)
  {
    if k == 0 {
      assert layouts[k := l'][1..] == layouts[1..];
    } else {
      TotalChanged(layouts[1..], k - 1, l');
      assert layouts[k := l'][1..] == layouts[1..][k - 1 := l'];
    }
  }

  lemma NodesSame(nodes: map<int, CleanupNode>, layouts: seq<Layout>, cleanups: seq<seq<CleanupNode>>, k: nat,
                  l': Layout)
    requires NodesKept(nodes, layouts, cleanups) && k < |layouts|
             && AllSlots(l'.segments) == AllSlots(layouts[k].segments)
    ensures NodesKept(nodes, layouts[k := l'], cleanups)
  {
    var all := layouts[k := l'];
    forall i | 0 <= i < |layouts|
      ensures NodesKeptAt(nodes, all, cleanups, i)
    {
      assert NodesKeptAt(nodes, layouts, cleanups, i);
    }
  }

  /** A node lies inside one of the live blocks of its arena. */
  lemma SlotInBlock(l: Layout, x: int, blocks: map<Addr, Block>, live: map<Addr, Chunk>, r: Registers) returns (b: Addr)
    requires Sound(l, blocks, live, r) && x in AllSlots(l.segments)
    ensures b in Bases(l.segments) && b in live && b <= x && x + CLEANUP <= b + live[b].size
  {
    var i, c := SlotPlace(l, x);
    b := l.segments[i].base;
    BasesMember(l.segments, i);
    assert LinkedAt(blocks, live, l.segments, i) && SegmentAt(l.segments, i);
  }

  /** No two arenas share a node. */
  lemma SlotsOfTwo(memory: Memory, serials: seq<SerialArena>, layouts: seq<Layout>, i: nat, j: nat, x: int)
    requires |serials| == |layouts| && memory.Valid() && Apart(layouts)
             && AllAt(memory, serials, layouts, memory.blocks, memory.live)
    requires i < |layouts| && j < |layouts| && i != j && x in AllSlots(layouts[i].segments)
    ensures x !in AllSlots(layouts[j].segments)
  {
    assert SerialAt(memory, serials, layouts, i, memory.blocks, memory.live);
    assert SerialAt(memory, serials, layouts, j, memory.blocks, memory.live);
    ApartBoth(layouts, i, j);
    if x in AllSlots(layouts[j].segments) {
      var b := SlotInBlock(layouts[i], x, memory.blocks, memory.live, serials[i].Fields());
      var c := SlotInBlock(layouts[j], x, memory.blocks, memory.live, serials[j].Fields());
    }
  }

  /** No two ranges handed out overlap, whichever threads asked for them. */
  lemma DataOfTwo(memory: Memory, serials: seq<SerialArena>, layouts: seq<Layout>, i: nat, j: nat, k: nat, m: nat)
    requires |serials| == |layouts| && memory.Valid() && Apart(layouts)
             && AllAt(memory, serials, layouts, memory.blocks, memory.live)
    requires i < |layouts| && j < |layouts| && k < |layouts[i].data| && m < |layouts[j].data| && (i, k) != (j, m)
    ensures var r, q := layouts[i].data[k], layouts[j].data[m]; RangesApart(r.addr, r.size, q.addr, q.size)
  {
    assert SerialAt(memory, serials, layouts, i, memory.blocks, memory.live);
    assert SerialAt(memory, serials, layouts, j, memory.blocks, memory.live);
    if i == j {
      if k < m { DataDisjoint(layouts[i], k, m); } else { DataDisjoint(layouts[i], m, k); }
    } else {
      ApartBoth(layouts, i, j);
      var b := DataInBlock(layouts[i], k, memory.blocks, memory.live, serials[i].Fields());
      var c := DataInBlock(layouts[j], m, memory.blocks, memory.live, serials[j].Fields());
    }
  }

  /** No range handed out overlaps a cleanup node, whichever threads they belong to. */
  lemma DataClearOfNodesOfTwo(memory: Memory, serials: seq<SerialArena>, layouts: seq<Layout>, i: nat, j: nat, k: nat,
                              x: int)
    requires |serials| == |layouts| && memory.Valid() && Apart(layouts)
             && AllAt(memory, serials, layouts, memory.blocks, memory.live)
    requires i < |layouts| && j < |layouts| && k < |layouts[i].data| && x in AllSlots(layouts[j].segments)
    ensures RangesApart(layouts[i].data[k].addr, layouts[i].data[k].size, x, CLEANUP)
  {
    assert SerialAt(memory, serials, layouts, i, memory.blocks, memory.live);
    assert SerialAt(memory, serials, layouts, j, memory.blocks, memory.live);
    if i == j {
      DataClearOfNodes(layouts[i], k, x);
    } else {
      ApartBoth(layouts, i, j);
      var b := DataInBlock(layouts[i], k, memory.blocks, memory.live, serials[i].Fields());
      var c := SlotInBlock(layouts[j], x, memory.blocks, memory.live, serials[j].Fields());
    }
  }

  lemma DataInBlock(l: Layout, k: nat, blocks: map<Addr, Block>, live: map<Addr, Chunk>, r: Registers) returns (b: Addr)
    requires Sound(l, blocks, live, r) && k < |l.data|
    ensures b in Bases(l.segments) && b in live && b <= l.data[k].addr
            && l.data[k].addr + l.data[k].size <= b + live[b].size
  {
    var i := DataPlace(l, k);
    b := l.segments[i].base;
    BasesMember(l.segments, i);
    assert LinkedAt(blocks, live, l.segments, i);
  }

  lemma NodesAdded(memory: Memory, serials: seq<SerialArena>, nodes: map<int, CleanupNode>, layouts: seq<Layout>,
                   cleanups: seq<seq<CleanupNode>>, k: nat, l': Layout, x: int, node: CleanupNode)
    requires |serials| == |layouts| && k < |layouts| && memory.Valid()
    requires Apart(layouts[k := l']) && AllAt(memory, serials, layouts[k := l'], memory.blocks, memory.live)
    requires NodesKept(nodes, layouts, cleanups)
    requires AllSlots(l'.segments) == [x] + AllSlots(layouts[k].segments) && x !in AllSlots(layouts[k].segments)
    ensures NodesKept(nodes[x := node], layouts[k := l'], cleanups[k := [node] + cleanups[k]])
  {
    var all, calls, nodes' := layouts[k := l'], cleanups[k := [node] + cleanups[k]], nodes[x := node];
    forall i | 0 <= i < |all|
      ensures NodesKeptAt(nodes', all, calls, i)
    {
      assert NodesKeptAt(nodes, layouts, cleanups, i);
      if i == k {
        NodesAtPush(nodes, AllSlots(layouts[k].segments), x, node, cleanups[k]);
      } else {
        SlotsOfTwo(memory, serials, all, k, i, x);
        NodesAtFrame(nodes, AllSlots(layouts[i].segments), x, node);
      }
    }
  }
}
