/**
 The memory an arena works on, and SerialArena itself: a bump allocator that owns a chain of
 blocks. Blocks and cleanup nodes live in the memory at their addresses, so reading a block that
 was released, or releasing one twice, would violate a precondition.
 */
module SerialArena {
  import opened Common
  import opened SerialLayout

  datatype Ownership = System | User

  /** A piece of memory obtained from operator new or block_alloc, or lent by the user. */
  datatype Chunk = Chunk(size: nat, ownership: Ownership)

  /** The header at the bottom of a block; next is 0 in the first block of a chain. */
  datatype Block = Block(next: Addr, size: nat, start: int)

  datatype CleanupNode = CleanupNode(elem: Addr, cleanup: nat)

  datatype AllocationPolicy = AllocationPolicy(startBlockSize: nat, maxBlockSize: nat)

  const DEFAULT_POLICY := AllocationPolicy(256, 8192)

  class Memory {
    var live: map<Addr, Chunk>
    var blocks: map<Addr, Block>
    var nodes: map<int, CleanupNode>
    /** Everything live lies below this address. */
    var top: Addr

    ghost predicate Valid()
      reads this
    {
      && blocks.Keys <= live.Keys && 0 < top && top % 8 == 0
      && (forall a :: a in live ==> 0 < a && a % 8 == 0 && a + live[a].size < top)
      && (forall a, b :: a in live && b in live && a != b ==> RangesApart(a, live[a].size, b, live[b].size))
    }

    constructor ()
      ensures Valid() && live == map[] && blocks == map[] && nodes == map[]
    {
      live, blocks, nodes, top := map[], map[], map[], 8;
    }

    /** operator new or block_alloc: aligned memory that overlaps nothing live. */
    method Allocate(size: nat) returns (a: Addr)
      requires Valid()
      modifies this`live, this`top
      ensures Valid() && a !in old(live) && 0 < a && a % 8 == 0
      ensures live == old(live)[a := Chunk(size, System)]
    {
      a := top;
      AlignUpTo8Least(size, size * 8);
      top := top + AlignUpTo8(size) + 8;
      live := live[a := Chunk(size, System)];
    }

    /** operator delete or block_dealloc: only for memory that came from Allocate and is still live. */
    method Release(a: Addr, size: nat)
      requires Valid() && a in live && live[a] == Chunk(size, System)
      modifies this`live, this`blocks
      ensures Valid() && live == old(live) - {a} && blocks == old(blocks) - {a}
    {
      live, blocks := live - {a}, blocks - {a};
    }
  }

  function Max(a: nat, b: nat): nat {
    if a < b then b else a
  }

  /** The size of a new block, case by case: with and without a policy, the first block of an arena and a later one,
      doubled or at its limit; and always at least what is asked for and its header. */
  lemma MemorySizeIs(policy: Option<AllocationPolicy>, lastSize: nat, minBytes: nat)
    ensures policy == None && lastSize == 0 ==> MemorySize(policy, lastSize, minBytes) == Max(256, 24 + minBytes)
    ensures policy == None && 0 < lastSize <= 4096 ==>
              MemorySize(policy, lastSize, minBytes) == Max(lastSize + lastSize, 24 + minBytes)
    ensures policy == None && 4096 < lastSize ==> MemorySize(policy, lastSize, minBytes) == Max(8192, 24 + minBytes)
    ensures policy.Some? && lastSize == 0 ==>
              MemorySize(policy, lastSize, minBytes) == Max(policy.value.startBlockSize, 24 + minBytes)
    ensures policy.Some? && 0 < lastSize && lastSize + lastSize <= policy.value.maxBlockSize ==>
              MemorySize(policy, lastSize, minBytes) == Max(lastSize + lastSize, 24 + minBytes)
    ensures policy.Some? && 0 < lastSize && policy.value.maxBlockSize < lastSize + lastSize ==>
              MemorySize(policy, lastSize, minBytes) == Max(policy.value.maxBlockSize, 24 + minBytes)
  {
  }

  /** Double the last block up to the limit, or start; but always room for the header and the request. */
  function MemorySize(policy: Option<AllocationPolicy>, lastSize: nat, minBytes: nat): (size: nat)
    ensures HEADER + minBytes <= size
  {
    var p := if policy.Some? then policy.value else DEFAULT_POLICY;
    var wanted := if lastSize != 0 then (if 2 * lastSize < p.maxBlockSize then 2 * lastSize else p.maxBlockSize)
                  else p.startBlockSize;
    if wanted < HEADER + minBytes then HEADER + minBytes else wanted
  }

  function NextBase(segments: seq<Segment>, i: nat): Addr {
    if i + 1 < |segments| then segments[i + 1].base else 0
  }

  ghost predicate LinkedAt(blocks: map<Addr, Block>, live: map<Addr, Chunk>, segments: seq<Segment>, i: nat)
    requires i < |segments|
  {
    var b := segments[i].base;
    && b in blocks && b in live && live[b].size == segments[i].size && blocks[b].size == segments[i].size
    && blocks[b].next == NextBase(segments, i)
    && (i > 0 ==> blocks[b].start == Start(segments[i]))
  }

  /** The block headers in memory spell out the chain; the newest block's start is not synced yet. */
  ghost predicate Linked(blocks: map<Addr, Block>, live: map<Addr, Chunk>, segments: seq<Segment>) {
    forall i :: 0 <= i < |segments| ==> LinkedAt(blocks, live, segments, i)
  }

  function Bases(segments: seq<Segment>): set<Addr> {
    set i | 0 <= i < |segments| :: segments[i].base
  }

  /** Every block but the first of the chain came from the system. */
  ghost predicate SystemOwned(live: map<Addr, Chunk>, segments: seq<Segment>) {
    forall i :: 0 <= i < |segments| - 1 ==> segments[i].base in live && live[segments[i].base].ownership == System
  }

  ghost predicate AllIn(nodes: map<int, CleanupNode>, xs: seq<int>) {
    forall i :: 0 <= i < |xs| ==> xs[i] in nodes
  }

  ghost function NodesAt(nodes: map<int, CleanupNode>, xs: seq<int>): seq<CleanupNode>
    requires AllIn(nodes, xs)
  {
    if xs == [] then [] else [nodes[xs[0]]] + NodesAt(nodes, xs[1..])
  }

  /** What an operation on one serial arena may change in the memory: nothing that was there before,
      except the headers of its own blocks. */
  ghost predicate MemoryGrew(live: map<Addr, Chunk>, live': map<Addr, Chunk>,
                             blocks: map<Addr, Block>, blocks': map<Addr, Block>, own: set<Addr>) {
    && (forall a :: a in live ==> a in live' && live'[a] == live[a])
    && (forall a :: a in blocks && a !in own ==> a in blocks' && blocks'[a] == blocks[a])
  }

  /** The block a serial arena was made in, which also holds the SerialArena object. */
  function HomeOf(l: Layout): Addr
    requires l.segments != []
  {
    l.segments[|l.segments| - 1].base
  }

  /** The chain kept its first block and its blocks; what is new was not live and came from the system, and nothing
      else became live. */
  ghost predicate ChainGrew(l: Layout, l': Layout, live: map<Addr, Chunk>, live': map<Addr, Chunk>) {
    && l.segments != [] && l'.segments != [] && HomeOf(l') == HomeOf(l) && Bases(l.segments) <= Bases(l'.segments)
    && (forall b :: b in Bases(l'.segments) ==> b in Bases(l.segments) || NewBlock(b, live, live'))
    && live'.Keys <= live.Keys + Bases(l'.segments)
  }

  ghost predicate NewBlock(b: Addr, live: map<Addr, Chunk>, live': map<Addr, Chunk>) {
    b !in live && b in live' && live'[b].ownership == System
  }

  lemma {:induction false} BasesMember(segments: seq<Segment>, i: nat)
    requires i < |segments|
    ensures segments[i].base in Bases(segments)
  {
  }

  /** The scalar fields of a SerialArena. */
  datatype Registers = Registers(head: Addr, ptr: Addr, limit: int, spaceUsed: int, spaceAllocated: nat)

  /** The fields and the memory agree with the layout. */
  ghost predicate Sound(l: Layout, blocks: map<Addr, Block>, live: map<Addr, Chunk>, r: Registers) {
    && LayoutOk(l) && Accounted(l) && Linked(blocks, live, l.segments)
    && r.head == l.segments[0].base && r.ptr == l.segments[0].dataEnd && r.limit == Start(l.segments[0])
    && r.spaceUsed + (r.ptr - r.head - HEADER) == DataSize(l.data)
    && r.spaceAllocated == BlockSize(l.segments)
  }

  ghost predicate SameBlocks(a: seq<Segment>, b: seq<Segment>) {
    |a| == |b| && forall i :: 0 <= i < |a| ==> a[i].base == b[i].base && a[i].size == b[i].size
  }

  /** Where a request that needs this many bytes is served: between data and nodes of the newest block as long as they
      are that far apart, and then no memory is asked for; otherwise in exactly one new block in front of it. */
  ghost predicate ServedIn(l: Layout, l': Layout, live: map<Addr, Chunk>, live': map<Addr, Chunk>,
                           need: nat, policy: Option<AllocationPolicy>)
  {
    && l.segments != [] && l'.segments != []
    && if need <= Start(l.segments[0]) - l.segments[0].dataEnd
       then live' == live && SameBlocks(l'.segments, l.segments)
       else
         var b := l'.segments[0].base;
         && b !in live && live' == live[b := Chunk(MemorySize(policy, l.segments[0].size, need), System)]
         && SameBlocks(l'.segments[1..], l.segments)
  }

  /** The layout once the newest block has room for n bytes: unchanged, or grown by a block at `base`. */
  function Roomy(l: Layout, base: Addr, policy: Option<AllocationPolicy>, n: nat): (l': Layout)
    requires l.segments != []
    ensures l'.segments != [] && l'.data == l.data
  {
    if n <= Room(l) then l else Grow(l, base, MemorySize(policy, l.segments[0].size, n))
  }

  /** The layout after a request for n bytes, in a new block at `base` if the current one has no room. */
  function WithData(l: Layout, base: Addr, policy: Option<AllocationPolicy>, n: nat): (l': Layout)
    requires l.segments != []
    ensures l'.segments != []
  {
    Bump(Roomy(l, base, policy, n), n)
  }

  /** The same, with a cleanup node. */
  function WithNode(l: Layout, base: Addr, policy: Option<AllocationPolicy>, n: nat): (l': Layout)
    requires l.segments != []
    ensures l'.segments != []
  {
    BumpWithCleanup(Roomy(l, base, policy, n + CLEANUP), n)
  }

  class SerialArena {
    const memory: Memory
    const owner: nat
    var next: SerialArena?
    var head: Addr
    var ptr: Addr
    var limit: int
    var spaceUsed: int
    var spaceAllocated: nat
    ghost var layout: Layout

    ghost predicate Valid()
      reads this, memory
    {
      memory.Valid() && Sound(layout, memory.blocks, memory.live, Fields())
    }

    function Fields(): Registers
      reads this
    {
      Registers(head, ptr, limit, spaceUsed, spaceAllocated)
    }

    /** SerialArena::New: the object itself is the first data in its first block. */
    constructor (memory: Memory, base: Addr, size: nat, owner: nat)
      requires memory.Valid() && HEADER + SERIAL <= size
      requires base in memory.live && memory.live[base].size == size
      modifies memory`blocks
      ensures Valid() && this.memory == memory && this.owner == owner && next == null
      ensures layout == First(base, size)
      ensures memory.blocks == old(memory.blocks)[base := Block(0, size, 0)]
    {
      this.memory, this.owner := memory, owner;
      next := null;
      head := base;
      ptr := base + HEADER + SERIAL;
      limit := base + AlignDown8(size);
      spaceUsed, spaceAllocated := 0, size;
      layout := First(base, size);
      new;
      memory.blocks := memory.blocks[base := Block(0, size, 0)];
      SoundFirst(memory.blocks, memory.live, base, size);
    }

    predicate HasSpace(n: nat)
      reads this
    {
      n <= limit - ptr
    }

    /** The next arena in its owner's list; the SerialArena object lives in its first block. */
    method Next() returns (n: SerialArena?)
      requires layout.segments != [] && HomeOf(layout) in memory.live
      ensures n == next
    {
      n := next;
    }

    /** SpaceUsed: the bytes of data handed out, without the SerialArena object itself. */
    function SpaceUsed(): (used: int)
      requires Valid()
      reads this, memory
      ensures used == DataSize(layout.data) - SERIAL
    {
      ptr - head - HEADER + spaceUsed - SERIAL
    }

    method AllocateFromExisting(n: nat) returns (ret: Addr)
      requires Valid() && n % 8 == 0 && HasSpace(n)
      modifies this`ptr, this`layout
      ensures Valid() && layout == Bump(old(layout), n) && ret == old(ptr)
      ensures layout.data == old(layout).data + [Range(ret, n)]
    {
      SoundBump(layout, memory.blocks, memory.live, Fields(), n);
      ret := ptr;
      ptr := ptr + n;
      layout := Bump(layout, n);
    }

    /** AllocateFromExistingWithCleanupFallback: data from below and one cleanup node from above. */
    method AllocateFromExistingWithCleanup(n: nat) returns (ret: Addr, node: int)
      requires Valid() && n % 8 == 0 && HasSpace(n + CLEANUP)
      modifies this`ptr, this`limit, this`layout
      ensures Valid() && layout == BumpWithCleanup(old(layout), n) && ret == old(ptr) && node == old(limit) - CLEANUP
      ensures layout.data == old(layout).data + [Range(ret, n)]
    {
      SoundBumpWithCleanup(layout, memory.blocks, memory.live, Fields(), n);
      ret := ptr;
      ptr := ptr + n;
      limit := limit - CLEANUP;
      layout := BumpWithCleanup(layout, n);
      node := limit;
    }

    /** AllocateNewBlock: sync the old block's start, account for it, and put a new block in front. */
    method AllocateNewBlock(n: nat, policy: Option<AllocationPolicy>)
      requires Valid()
      modifies this, memory`live, memory`blocks, memory`top
      ensures Valid() && next == old(next)
      ensures head !in old(memory.live) && HasSpace(n)
      ensures layout == Grow(old(layout), head, MemorySize(policy, old(layout).segments[0].size, n))
      ensures memory.live
              == old(memory.live)[head := Chunk(MemorySize(policy, old(layout).segments[0].size, n), System)]
      ensures MemoryGrew(old(memory.live), memory.live, old(memory.blocks), memory.blocks, Bases(old(layout).segments))
      ensures ChainGrew(old(layout), layout, old(memory.live), memory.live)
    {
      ghost var l, live, blocks := layout, memory.live, memory.blocks;
      SyncStart();
      var used := spaceUsed + (ptr - head - HEADER);
      assert LinkedAt(memory.blocks, memory.live, layout.segments, 0);
      var size := MemorySize(policy, memory.blocks[head].size, n);
      var base := memory.Allocate(size);
      SoundMoreLive(layout, memory.blocks, live, Fields(), base, size);
      ApartFromLive(memory, layout.segments, live, base);
      GrownMemory(l, live, blocks, base, size, limit);
      PushBlock(base, size, used);
    }

    /** Write limit_ into the newest block's header. */
    method SyncStart()
      requires Valid()
      modifies memory`blocks
      ensures Valid() && head in old(memory.blocks) && head in Bases(layout.segments)
      ensures memory.blocks == old(memory.blocks)[head := old(memory.blocks)[head].(start := limit)]
    {
      assert LinkedAt(memory.blocks, memory.live, layout.segments, 0);
      BasesMember(layout.segments, 0);
      SoundSynced(layout, memory.blocks, memory.live, Fields());
      memory.blocks := memory.blocks[head := memory.blocks[head].(start := limit)];
    }

    /** Make a fresh block the newest one. */
    method PushBlock(base: Addr, size: nat, used: int)
      requires Valid() && HEADER <= size
      requires base in memory.live && memory.live[base] == Chunk(size, System)
      requires forall i :: 0 <= i < |layout.segments| ==>
                 RangesApart(base, size, layout.segments[i].base, layout.segments[i].size)
                 && base != layout.segments[i].base
      requires head in memory.blocks && memory.blocks[head].start == limit && used == spaceUsed + (ptr - head - HEADER)
      modifies this, memory`blocks
      ensures Valid() && next == old(next) && head == base && HasSpace(size - HEADER)
      ensures layout == Grow(old(layout), base, size)
      ensures memory.blocks == old(memory.blocks)[base := Block(old(head), size, 0)]
    {
      SoundGrow(layout, memory.blocks, memory.live, Fields(), base, size);
      memory.blocks := memory.blocks[base := Block(head, size, 0)];
      head, ptr, limit, spaceUsed, spaceAllocated := base, base + HEADER, base + size, used, spaceAllocated + size;
      layout := Grow(layout, base, size);
    }

    /** The test both allocation paths start with: a new block unless the current one has room. */
    method EnsureSpace(n: nat, policy: Option<AllocationPolicy>)
      requires Valid()
      modifies this, memory`live, memory`blocks, memory`top
      ensures Valid() && next == old(next) && HasSpace(n)
      ensures layout == Roomy(old(layout), head, policy, n)
      ensures ServedIn(old(layout), layout, old(memory.live), memory.live, n, policy)
      ensures ptr == if n <= old(limit) - old(ptr) then old(ptr) else head + HEADER
      ensures MemoryGrew(old(memory.live), memory.live, old(memory.blocks), memory.blocks, Bases(old(layout).segments))
      ensures ChainGrew(old(layout), layout, old(memory.live), memory.live)
    {
      ChainSame(layout, memory.live);
      if !HasSpace(n) {
        AllocateNewBlock(n, policy);
        assert layout.segments[1..] == old(layout).segments;
      }
    }

    method AllocateAligned(n: nat, policy: Option<AllocationPolicy>) returns (ret: Addr)
      requires Valid() && n % 8 == 0
      modifies this, memory`live, memory`blocks, memory`top
      ensures Valid() && next == old(next)
      ensures layout == WithData(old(layout), head, policy, n)
      ensures ServedIn(old(layout), layout, old(memory.live), memory.live, n, policy)
      ensures ret == if n <= old(limit) - old(ptr) then old(ptr) else head + HEADER
      ensures layout.data == old(layout).data + [Range(ret, n)]
      ensures MemoryGrew(old(memory.live), memory.live, old(memory.blocks), memory.blocks, Bases(old(layout).segments))
      ensures ChainGrew(old(layout), layout, old(memory.live), memory.live)
    {
      EnsureSpace(n, policy);
      StillServedIn(old(layout), layout, Bump(layout, n), old(memory.live), memory.live, n, policy);
      ChainOfChange(old(layout), layout, Bump(layout, n), old(memory.live), memory.live);
      ret := AllocateFromExisting(n);
    }

    /** Serve the request only from the current block. */
    method MaybeAllocateAligned(n: nat) returns (ok: bool, ret: Addr)
      requires Valid() && n % 8 == 0
      modifies this`ptr, this`layout
      ensures Valid() && ok == (n <= old(limit) - old(ptr)) && ok == (n <= Room(old(layout)))
      ensures layout == if ok then Bump(old(layout), n) else old(layout)
      ensures ok ==> ret == old(ptr)
    {
      ok, ret := HasSpace(n), 0;
      if ok {
        ret := AllocateFromExisting(n);
      }
    }

    method AllocateAlignedWithCleanup(n: nat, policy: Option<AllocationPolicy>) returns (ret: Addr, node: int)
      requires Valid() && n % 8 == 0
      modifies this, memory`live, memory`blocks, memory`top
      ensures Valid() && next == old(next)
      ensures layout == WithNode(old(layout), head, policy, n)
      ensures ServedIn(old(layout), layout, old(memory.live), memory.live, n + CLEANUP, policy)
      ensures ret == if n + CLEANUP <= old(limit) - old(ptr) then old(ptr) else head + HEADER
      ensures layout.data == old(layout).data + [Range(ret, n)]
      ensures AllSlots(layout.segments) == [node] + AllSlots(old(layout).segments)
      ensures node !in AllSlots(old(layout).segments)
      ensures MemoryGrew(old(memory.live), memory.live, old(memory.blocks), memory.blocks, Bases(old(layout).segments))
      ensures ChainGrew(old(layout), layout, old(memory.live), memory.live)
    {
      hide LayoutOk, MemoryGrew, ChainGrew, AllSlots;
      EnsureSpace(n + CLEANUP, policy);
      StillServedIn(old(layout), layout, BumpWithCleanup(layout, n), old(memory.live), memory.live, n + CLEANUP,
                    policy);
      RoomySlots(old(layout), head, policy, n + CLEANUP);
      NewNodeIsNew(layout);
      SlotsAfterCleanup(layout, n);
      ChainOfChange(old(layout), layout, BumpWithCleanup(layout, n), old(memory.live), memory.live);
      ret, node := AllocateFromExistingWithCleanup(n);
    }

    /** Register a cleanup; it becomes the first that CleanupList will run. */
    method AddCleanup(elem: Addr, cleanup: nat, policy: Option<AllocationPolicy>) returns (ghost node: int)
      requires Valid()
      modifies this, memory
      ensures Valid() && next == old(next)
      ensures layout == WithNode(old(layout), head, policy, 0)
      ensures ServedIn(old(layout), layout, old(memory.live), memory.live, CLEANUP, policy)
      ensures AllSlots(layout.segments) == [node] + AllSlots(old(layout).segments)
      ensures node !in AllSlots(old(layout).segments)
      ensures memory.nodes == old(memory.nodes)[node := CleanupNode(elem, cleanup)]
      ensures MemoryGrew(old(memory.live), memory.live, old(memory.blocks), memory.blocks, Bases(old(layout).segments))
      ensures ChainGrew(old(layout), layout, old(memory.live), memory.live)
    {
      hide ServedIn, ChainGrew, MemoryGrew, AllSlots, Sound, WithNode;
      var ret, second := AllocateAlignedWithCleanup(0, policy);
      node := second;
      memory.nodes := memory.nodes[second := CleanupNode(elem, cleanup)];
    }

    /** AllocateInternal with a destructor (arena.h): the object, aligned above 8 if asked, and its cleanup. */
    method AllocateObject(size: nat, align: nat, destructor: nat, policy: Option<AllocationPolicy>)
      returns (ret: Addr, ghost node: int)
      requires Valid() && PowerOfTwo(align) && (8 < align ==> size % 8 == 0)
      modifies this, memory
      ensures Valid() && next == old(next)
      ensures AllSlots(layout.segments) == [node] + AllSlots(old(layout).segments)
      ensures memory.nodes == old(memory.nodes)[node := CleanupNode(ret, destructor)]
      ensures ServedIn(old(layout), layout, old(memory.live), memory.live, ObjectSize(size, align) + CLEANUP, policy)
      ensures |layout.data| == |old(layout).data| + 1 && layout.data[..|old(layout).data|] == old(layout).data
      ensures layout.data[|old(layout).data|].addr <= ret
      ensures ret + size <= layout.data[|old(layout).data|].addr + layout.data[|old(layout).data|].size
      ensures if align <= 8 then ret % 8 == 0 else MultipleOf(ret, align)
    {
      hide ServedIn, ChainGrew, MemoryGrew, WithNode, AllSlots, PowerOfTwo, MultipleOf, AlignTo, AlignUpTo8, Sound;
      ObjectSizeAligned(size, align);
      var second;
      if align <= 8 {
        ret, second := AllocateAlignedWithCleanup(AlignUpTo8(size), policy);
        NewRangeAligned(ret);
        ObjectFits(ret, size, align);
      } else {
        ret, second := AllocateAlignedWithCleanup(size + align - 8, policy);
        NewRangeAligned(ret);
        ObjectFits(ret, size, align);
        ret := AlignTo(ret, align);
      }
      node := second;
      memory.nodes := memory.nodes[second := CleanupNode(ret, destructor)];
    }

    lemma NewRangeAligned(a: Addr)
      requires Valid() && layout.data != [] && layout.data[|layout.data| - 1].addr == a
      ensures a % 8 == 0
    {
      LastRangeAligned(layout);
    }

    /** Run the cleanups of every block, newest block first; the calls made, in order, are returned. */
    method CleanupList() returns (ran: seq<CleanupNode>)
      requires Valid() && AllIn(memory.nodes, AllVisited(layout.segments))
      modifies memory`blocks
      ensures Valid()
      ensures ran == NodesAt(memory.nodes, AllVisited(layout.segments))
      ensures memory.blocks.Keys == old(memory.blocks.Keys)
      ensures MemoryGrew(old(memory.live), memory.live, old(memory.blocks), memory.blocks, Bases(layout.segments))
    {
      SyncStart();
      AllSynced(memory.blocks, memory.live, layout.segments);
      NextIsZero(layout);
      ran := CleanupBlocks(head, layout.segments);
    }

    /** The outer loop of CleanupList. */
    method CleanupBlocks(first: Addr, ghost segments: seq<Segment>) returns (ran: seq<CleanupNode>)
      requires segments != [] && first == segments[0].base && Synced(memory.blocks, segments) && ChainEnds(segments)
      requires AllIn(memory.nodes, AllVisited(segments))
      ensures ran == NodesAt(memory.nodes, AllVisited(segments))
    {
      var b := first;
      ran := [];
      ghost var i := 0;
      CleanupStarts(memory.nodes, segments);
      while true
        invariant 0 <= i < |segments| && b == segments[i].base
        invariant LeftToRun(memory.nodes, segments, i, ran)
        decreases |segments| - i
      {
        HeaderAt(memory.blocks, segments, i);
        NextToRun(memory.nodes, segments, i, ran);
        var one := CleanupBlock(b, memory.blocks[b], segments[i]);
        ran := ran + one;
        b := memory.blocks[b].next;
        i := i + 1;
        if b == 0 {
          break;
        }
      }
      CleanupEnds(memory.nodes, segments, ran);
    }

    /** The inner loop of CleanupList on one block. */
    method CleanupBlock(b: Addr, block: Block, ghost g: Segment) returns (ran: seq<CleanupNode>)
      requires b == g.base && block.size == g.size && block.start == Start(g)
      requires AllIn(memory.nodes, Visited(g))
      ensures ran == NodesAt(memory.nodes, Visited(g))
    {
      var end := b + AlignDown8(block.size);
      var it := block.start;
      var num := (end - it) / CLEANUP;
      ran := [];
      if num > 0 {
        while it < end
          invariant AllIn(memory.nodes, Walk(it, end))
          invariant ran + NodesAt(memory.nodes, Walk(it, end)) == NodesAt(memory.nodes, Visited(g))
          decreases end - it
        {
          AllInTail(memory.nodes, it, end);
          ran := ran + [memory.nodes[it]];
          it := it + CLEANUP;
        }
      }
    }

    /** Release every block but the first, which is returned; `freed` is what the deallocator was given. */
    method Free() returns (base: Addr, size: nat, freed: nat)
      requires Valid() && SystemOwned(memory.live, layout.segments)
      modifies memory`live, memory`blocks
      ensures memory.Valid()
      ensures base == layout.segments[|layout.segments| - 1].base && size == layout.segments[|layout.segments| - 1].size
      ensures freed + size == BlockSize(layout.segments)
      ensures memory.live == old(memory.live) - Bases(layout.segments[..|layout.segments| - 1])
      ensures memory.blocks == old(memory.blocks) - Bases(layout.segments[..|layout.segments| - 1])
    {
      ghost var l, i := layout, 0;
      ghost var live, blocks := memory.live, memory.blocks;
      assert l.segments[..0] == [] && l.segments[0..] == l.segments;
      FreedNone(l, live, blocks);
      var b := head;
      base, size, freed := b, memory.blocks[b].size, 0;
      while memory.blocks[b].next != 0
        invariant memory.Valid() && PartlyFreed(l, i, live, blocks, memory.live, memory.blocks)
        invariant b == base == l.segments[i].base && b in memory.blocks && size == l.segments[i].size
        invariant freed + BlockSize(l.segments[i..]) == BlockSize(l.segments)
        decreases |l.segments| - i
      {
        ReleaseStep(l, i, live, blocks, memory.live, memory.blocks);
        b := memory.blocks[b].next;
        memory.Release(base, size);
        i := i + 1;
        freed := freed + size;
        base, size := b, memory.blocks[b].size;
      }
      FreedLast(l, i, live, blocks, memory.live, memory.blocks);
    }
  }

  /** What is asked for to place an object. */
  function ObjectSize(size: nat, align: nat): nat {
    if align <= 8 then AlignUpTo8(size) else size + align - 8
  }

  lemma ObjectSizeAligned(size: nat, align: nat)
    requires PowerOfTwo(align) && (8 < align ==> size % 8 == 0)
    ensures ObjectSize(size, align) % 8 == 0
  {
    if 8 < align {
      PowerAbove8(align);
      SumOfEights(size, align - 8);
    }
  }

  /** The object fits in what was asked for, at the address it is aligned to. */
  lemma ObjectFits(p: Addr, size: nat, align: nat)
    requires p % 8 == 0 && PowerOfTwo(align)
    ensures var at := if align <= 8 then p else AlignTo(p, align);
            && p <= at && at + size <= p + ObjectSize(size, align)
            && if align <= 8 then at % 8 == 0 else MultipleOf(at, align)
  {
    if align <= 8 { AlignUpTo8Least(size, size * 8); } else { AlignedFits(p, size, align); }
  }

  // ----- soundness of the steps -----

  lemma SoundFirst(blocks: map<Addr, Block>, live: map<Addr, Chunk>, base: Addr, size: nat)
    requires 0 < base && base % 8 == 0 && HEADER + SERIAL <= size
    requires base in blocks && blocks[base] == Block(0, size, 0) && base in live && live[base].size == size
    ensures Sound(First(base, size), blocks, live,
                  Registers(base, base + HEADER + SERIAL, base + AlignDown8(size), 0, size))
  {
    var l := First(base, size);
    FirstOk(base, size);
    assert LinkedAt(blocks, live, l.segments, 0);
    assert l.data[..0] == [] && l.segments[1..] == [];
  }

  lemma SoundBump(l: Layout, blocks: map<Addr, Block>, live: map<Addr, Chunk>, r: Registers, n: nat)
    requires Sound(l, blocks, live, r) && n % 8 == 0 && n <= Room(l)
    ensures Sound(Bump(l, n), blocks, live, r.(ptr := r.ptr + n))
  {
    BumpOk(l, n);
    StepAccounted(l, n, 0, 0);
    DataGrows(l.data, Range(r.ptr, n));
    StillLinked(blocks, live, l.segments, Bump(l, n).segments);
  }

  lemma SoundBumpWithCleanup(l: Layout, blocks: map<Addr, Block>, live: map<Addr, Chunk>, r: Registers, n: nat)
    requires Sound(l, blocks, live, r) && n % 8 == 0 && n + CLEANUP <= Room(l)
    ensures Sound(BumpWithCleanup(l, n), blocks, live, r.(ptr := r.ptr + n, limit := r.limit - CLEANUP))
  {
    BumpWithCleanupOk(l, n);
    StepAccounted(l, n, 0, 0);
    DataGrows(l.data, Range(r.ptr, n));
    StillLinked(blocks, live, l.segments, BumpWithCleanup(l, n).segments);
  }

  lemma SoundSynced(l: Layout, blocks: map<Addr, Block>, live: map<Addr, Chunk>, r: Registers)
    requires Sound(l, blocks, live, r) && r.head in blocks
    ensures Sound(l, blocks[r.head := blocks[r.head].(start := r.limit)], live, r)
  {
    StartSynced(blocks, blocks[r.head := blocks[r.head].(start := r.limit)], live, l);
  }

  lemma SoundMoreLive(l: Layout, blocks: map<Addr, Block>, live: map<Addr, Chunk>, r: Registers, base: Addr, size: nat)
    requires Sound(l, blocks, live, r) && base !in live
    ensures Sound(l, blocks, live[base := Chunk(size, System)], r)
    ensures forall i :: 0 <= i < |l.segments| ==> base != l.segments[i].base
  {
    forall i | 0 <= i < |l.segments|
      ensures LinkedAt(blocks, live[base := Chunk(size, System)], l.segments, i) && base != l.segments[i].base
    {
      assert LinkedAt(blocks, live, l.segments, i);
    }
  }

  lemma SoundGrow(l: Layout, blocks: map<Addr, Block>, live: map<Addr, Chunk>, r: Registers, base: Addr, size: nat)
    requires Sound(l, blocks, live, r) && r.head in blocks && blocks[r.head].start == r.limit
    requires 0 < base && base % 8 == 0 && HEADER <= size && base in live && live[base].size == size
    requires forall i :: 0 <= i < |l.segments| ==>
               RangesApart(base, size, l.segments[i].base, l.segments[i].size) && base != l.segments[i].base
    ensures Sound(Grow(l, base, size), blocks[base := Block(r.head, size, 0)], live,
                  Registers(base, base + HEADER, base + size, r.spaceUsed + (r.ptr - r.head - HEADER),
                            r.spaceAllocated + size))
  {
    GrowOk(l, base, size);
    StepAccounted(l, 0, base, size);
    GrownLinked(blocks, live, l.segments, Grow(l, base, size).segments[0]);
  }

  // ----- what the methods rely on -----

  lemma ChainSame(l: Layout, live: map<Addr, Chunk>)
    requires l.segments != []
    ensures ChainGrew(l, l, live, live)
  {
  }

  lemma SameBases(l: Layout, l': Layout)
    requires l.segments != [] && |l'.segments| == |l.segments|
    requires l'.segments[0].base == l.segments[0].base && l'.segments[1..] == l.segments[1..]
    ensures Bases(l'.segments) == Bases(l.segments) && HomeOf(l') == HomeOf(l)
  {
    assert forall i :: 1 <= i < |l.segments| ==> l'.segments[i] == l'.segments[1..][i - 1] == l.segments[i];
    assert forall i :: 0 <= i < |l.segments| ==> l'.segments[i].base == l.segments[i].base;
  }

  /** A change within the newest block changes nothing about the chain. */
  lemma ChainOfChange(l: Layout, l1: Layout, l2: Layout, live: map<Addr, Chunk>, live': map<Addr, Chunk>)
    requires ChainGrew(l, l1, live, live') && |l2.segments| == |l1.segments|
    requires l2.segments[0].base == l1.segments[0].base && l2.segments[1..] == l1.segments[1..]
    ensures ChainGrew(l, l2, live, live')
  {
    SameBases(l1, l2);
  }

  lemma StillServedIn(l: Layout, l1: Layout, l2: Layout, live: map<Addr, Chunk>, live': map<Addr, Chunk>,
                      need: nat, policy: Option<AllocationPolicy>)
    requires ServedIn(l, l1, live, live', need, policy) && |l2.segments| == |l1.segments|
    requires l2.segments[0].base == l1.segments[0].base && l2.segments[0].size == l1.segments[0].size
    requires l2.segments[1..] == l1.segments[1..]
    ensures ServedIn(l, l2, live, live', need, policy)
  {
    assert forall i :: 1 <= i < |l1.segments| ==> l2.segments[i] == l2.segments[1..][i - 1] == l1.segments[i];
  }

  lemma BasesOfGrow(segments: seq<Segment>, g: Segment)
    ensures Bases([g] + segments) == {g.base} + Bases(segments)
  {
    var all := [g] + segments;
    forall b | b in Bases(segments)
      ensures b in Bases(all)
    {
      var i :| 0 <= i < |segments| && segments[i].base == b;
      assert all[i + 1].base == b;
    }
    assert all[0].base == g.base;
  }

  /** Syncing the newest block's start and pushing a fresh block is all that AllocateNewBlock does to the memory. */
  lemma GrownMemory(l: Layout, live: map<Addr, Chunk>, blocks: map<Addr, Block>, base: Addr, size: nat, start: int)
    requires l.segments != [] && Linked(blocks, live, l.segments) && l.segments[0].base in blocks && base !in live
    requires blocks.Keys <= live.Keys
    ensures var live' := live[base := Chunk(size, System)];
            var h := l.segments[0].base;
            var blocks' := blocks[h := blocks[h].(start := start)][base := Block(h, size, 0)];
            MemoryGrew(live, live', blocks, blocks', Bases(l.segments))
            && ChainGrew(l, Grow(l, base, size), live, live')
  {
    BasesMember(l.segments, 0);
    BasesOfGrow(l.segments, Grow(l, base, size).segments[0]);
  }

  lemma DataGrows(data: seq<Range>, r: Range)
    ensures DataSize(data + [r]) == DataSize(data) + r.size
  {
    assert (data + [r])[..|data|] == data;
  }

  lemma RoomySlots(l: Layout, base: Addr, policy: Option<AllocationPolicy>, n: nat)
    requires l.segments != []
    ensures AllSlots(Roomy(l, base, policy, n).segments) == AllSlots(l.segments)
  {
    SlotsAfterOther(l, 0, base, MemorySize(policy, l.segments[0].size, n));
  }

  lemma LastRangeAligned(l: Layout)
    requires LayoutOk(l) && l.data != []
    ensures l.data[|l.data| - 1].addr % 8 == 0
  {
    var i := DataPlace(l, |l.data| - 1);
  }

  /** Only the newest segment changed, and not its block. */
  lemma StillLinked(blocks: map<Addr, Block>, live: map<Addr, Chunk>, segments: seq<Segment>, segments': seq<Segment>)
    requires Linked(blocks, live, segments) && |segments| == |segments'| > 0
    requires segments'[0].base == segments[0].base && segments'[0].size == segments[0].size
    requires segments'[1..] == segments[1..]
    ensures Linked(blocks, live, segments')
  {
    forall i | 0 <= i < |segments'|
      ensures LinkedAt(blocks, live, segments', i)
    {
      assert LinkedAt(blocks, live, segments, i);
      assert forall k :: 1 <= k < |segments| ==> segments'[k] == segments'[1..][k - 1] == segments[k];
    }
  }

  /** Writing the newest block's start leaves the chain linked. */
  lemma StartSynced(blocks: map<Addr, Block>, blocks': map<Addr, Block>, live: map<Addr, Chunk>, l: Layout)
    requires LayoutOk(l) && Linked(blocks, live, l.segments)
    requires l.segments[0].base in blocks
    requires blocks' == blocks[l.segments[0].base := blocks[l.segments[0].base].(start := Start(l.segments[0]))]
    ensures Linked(blocks', live, l.segments)
    ensures blocks'[l.segments[0].base].start == Start(l.segments[0])
  {
    BaseDistinct(l, 0);
    forall i | 0 <= i < |l.segments|
      ensures LinkedAt(blocks', live, l.segments, i)
    {
      assert LinkedAt(blocks, live, l.segments, i);
    }
  }

  /** A fresh piece of memory does not overlap the blocks of a live chain. */
  lemma ApartFromLive(memory: Memory, segments: seq<Segment>, live: map<Addr, Chunk>, base: Addr)
    requires memory.Valid() && base !in live && Linked(memory.blocks, memory.live, segments)
    requires base in memory.live && forall i :: 0 <= i < |segments| ==> base != segments[i].base
    ensures forall i :: 0 <= i < |segments| ==>
            RangesApart(base, memory.live[base].size, segments[i].base, segments[i].size)
  {
    forall i | 0 <= i < |segments|
      ensures RangesApart(base, memory.live[base].size, segments[i].base, segments[i].size)
    {
      assert LinkedAt(memory.blocks, memory.live, segments, i);
    }
  }

  lemma GrownLinked(blocks: map<Addr, Block>, live: map<Addr, Chunk>, segments: seq<Segment>, g: Segment)
    requires segments != [] && Linked(blocks, live, segments) && segments[0].base in blocks
    requires blocks[segments[0].base].start == Start(segments[0])
    requires g.base in live && live[g.base].size == g.size
    requires forall i :: 0 <= i < |segments| ==> g.base != segments[i].base
    ensures Linked(blocks[g.base := Block(segments[0].base, g.size, 0)], live, [g] + segments)
  {
    var segments' := [g] + segments;
    var blocks' := blocks[g.base := Block(segments[0].base, g.size, 0)];
    forall i | 0 <= i < |segments'|
      ensures LinkedAt(blocks', live, segments', i)
    {
      if i > 0 {
        assert LinkedAt(blocks, live, segments, i - 1);
        assert segments'[i] == segments[i - 1];
      }
    }
  }

  lemma {:induction false} NodesAtConcat(nodes: map<int, CleanupNode>, xs: seq<int>, ys: seq<int>)
    requires AllIn(nodes, xs) && AllIn(nodes, ys)
    ensures AllIn(nodes, xs + ys)
    ensures NodesAt(nodes, xs + ys) == NodesAt(nodes, xs) + NodesAt(nodes, ys)
  {
    if xs == [] {
      assert xs + ys == ys;
    } else {
      assert (xs + ys)[1..] == xs[1..] + ys;
      NodesAtConcat(nodes, xs[1..], ys);
    }
  }

  /** The nodes from block i on are those of block i, then those of the older blocks. */
  lemma VisitedSplit(nodes: map<int, CleanupNode>, segments: seq<Segment>, i: nat)
    requires i < |segments| && AllIn(nodes, AllVisited(segments[i..]))
    ensures AllIn(nodes, Visited(segments[i])) && AllIn(nodes, AllVisited(segments[i + 1..]))
    ensures NodesAt(nodes, AllVisited(segments[i..])) ==
            NodesAt(nodes, Visited(segments[i])) + NodesAt(nodes, AllVisited(segments[i + 1..]))
  {
    var xs, ys := Visited(segments[i]), AllVisited(segments[i + 1..]);
    assert segments[i..][1..] == segments[i + 1..];
    assert AllVisited(segments[i..]) == xs + ys;
    assert forall k :: 0 <= k < |xs| ==> (xs + ys)[k] == xs[k];
    assert forall k :: 0 <= k < |ys| ==> (xs + ys)[|xs| + k] == ys[k];
    NodesAtConcat(nodes, xs, ys);
  }

  /** The calls made so far and those of the blocks from i on make up all calls. */
  ghost predicate LeftToRun(nodes: map<int, CleanupNode>, segments: seq<Segment>, i: nat, ran: seq<CleanupNode>) {
    && i <= |segments| && AllIn(nodes, AllVisited(segments)) && AllIn(nodes, AllVisited(segments[i..]))
    && ran + NodesAt(nodes, AllVisited(segments[i..])) == NodesAt(nodes, AllVisited(segments))
  }

  lemma CleanupStarts(nodes: map<int, CleanupNode>, segments: seq<Segment>)
    requires AllIn(nodes, AllVisited(segments))
    ensures LeftToRun(nodes, segments, 0, [])
  {
    assert segments[0..] == segments;
  }

  lemma NextToRun(nodes: map<int, CleanupNode>, segments: seq<Segment>, i: nat, ran: seq<CleanupNode>)
    requires i < |segments| && LeftToRun(nodes, segments, i, ran)
    ensures AllIn(nodes, Visited(segments[i]))
    ensures LeftToRun(nodes, segments, i + 1, ran + NodesAt(nodes, Visited(segments[i])))
  {
    VisitedSplit(nodes, segments, i);
    Associate(ran, NodesAt(nodes, Visited(segments[i])), NodesAt(nodes, AllVisited(segments[i + 1..])));
  }

  lemma CleanupEnds(nodes: map<int, CleanupNode>, segments: seq<Segment>, ran: seq<CleanupNode>)
    requires LeftToRun(nodes, segments, |segments|, ran)
    ensures ran == NodesAt(nodes, AllVisited(segments))
  {
    assert segments[|segments|..] == [];
  }

  lemma HeaderAt(blocks: map<Addr, Block>, segments: seq<Segment>, i: nat)
    requires i < |segments| && Synced(blocks, segments) && ChainEnds(segments)
    ensures segments[i].base in blocks
    ensures blocks[segments[i].base].size == segments[i].size && blocks[segments[i].base].start == Start(segments[i])
    ensures blocks[segments[i].base].next == NextBase(segments, i)
    ensures blocks[segments[i].base].next == 0 <==> i == |segments| - 1
  {
    assert SyncedAt(blocks, segments, i);
  }

  lemma AllInTail(nodes: map<int, CleanupNode>, it: int, end: int)
    requires it < end && AllIn(nodes, Walk(it, end))
    ensures it in nodes && AllIn(nodes, Walk(it + CLEANUP, end))
    ensures NodesAt(nodes, Walk(it, end)) == [nodes[it]] + NodesAt(nodes, Walk(it + CLEANUP, end))
  {
    var xs := Walk(it, end);
    assert xs[0] == it && xs[1..] == Walk(it + CLEANUP, end);
    assert forall k :: 0 <= k < |xs[1..]| ==> xs[1..][k] == xs[k + 1];
  }

  /** Only the first block of the chain has no next. */
  ghost predicate ChainEnds(segments: seq<Segment>) {
    forall i :: 0 <= i < |segments| ==> (NextBase(segments, i) == 0 <==> i == |segments| - 1)
  }

  lemma NextIsZero(l: Layout)
    requires LayoutOk(l)
    ensures ChainEnds(l.segments)
  {
    forall i | 0 <= i < |l.segments|
      ensures NextBase(l.segments, i) == 0 <==> i == |l.segments| - 1
    {
      if i + 1 < |l.segments| { assert SegmentAt(l.segments, i + 1); }
    }
  }

  lemma BaseDistinct(l: Layout, i: nat)
    requires LayoutOk(l) && i < |l.segments|
    ensures forall k :: 0 <= k < |l.segments| && k != i ==> l.segments[k].base != l.segments[i].base
  {
    forall k | 0 <= k < |l.segments| && k != i
      ensures l.segments[k].base != l.segments[i].base
    {
      BlocksApart(l.segments, k, i);
    }
  }

  lemma BasesPush(segments: seq<Segment>, i: nat)
    requires i < |segments|
    ensures Bases(segments[..i + 1]) == Bases(segments[..i]) + {segments[i].base}
    ensures (forall k :: 0 <= k < i ==> segments[k].base != segments[i].base) ==>
            segments[i].base !in Bases(segments[..i])
  {
    assert segments[..i + 1] == segments[..i] + [segments[i]];
    forall x | x in Bases(segments[..i]) + {segments[i].base}
      ensures x in Bases(segments[..i + 1])
    {
      if x == segments[i].base {
        assert segments[..i + 1][i].base == x;
      } else {
        var k :| 0 <= k < i && segments[..i][k].base == x;
        assert segments[..i + 1][k].base == x;
      }
    }
  }

  /** The header of block i is complete: its size, its link and its start. */
  ghost predicate SyncedAt(blocks: map<Addr, Block>, segments: seq<Segment>, i: nat)
    requires i < |segments|
  {
    segments[i].base in blocks
    && blocks[segments[i].base] == Block(NextBase(segments, i), segments[i].size, Start(segments[i]))
  }

  ghost predicate Synced(blocks: map<Addr, Block>, segments: seq<Segment>) {
    forall i :: 0 <= i < |segments| ==> SyncedAt(blocks, segments, i)
  }

  lemma AllSynced(blocks: map<Addr, Block>, live: map<Addr, Chunk>, segments: seq<Segment>)
    requires segments != [] && Linked(blocks, live, segments)
    requires segments[0].base in blocks && blocks[segments[0].base].start == Start(segments[0])
    ensures Synced(blocks, segments)
  {
    forall i | 0 <= i < |segments|
      ensures SyncedAt(blocks, segments, i)
    {
      assert LinkedAt(blocks, live, segments, i);
    }
  }

  ghost predicate LinkedFrom(blocks: map<Addr, Block>, live: map<Addr, Chunk>, segments: seq<Segment>, i: nat) {
    forall k :: i <= k < |segments| ==> LinkedAt(blocks, live, segments, k)
  }

  /** The first i blocks of the chain are gone from the memory, the others are as they were. */
  ghost predicate PartlyFreed(l: Layout, i: int, live0: map<Addr, Chunk>, blocks0: map<Addr, Block>,
                              live: map<Addr, Chunk>, blocks: map<Addr, Block>) {
    && 0 <= i < |l.segments| && LinkedFrom(blocks, live, l.segments, i)
    && live == live0 - Bases(l.segments[..i]) && blocks == blocks0 - Bases(l.segments[..i])
  }

  lemma FreedNone(l: Layout, live: map<Addr, Chunk>, blocks: map<Addr, Block>)
    requires l.segments != [] && Linked(blocks, live, l.segments)
    ensures PartlyFreed(l, 0, live, blocks, live, blocks)
    ensures l.segments[0].base in blocks && blocks[l.segments[0].base].size == l.segments[0].size
  {
    assert l.segments[..0] == [];
    assert LinkedAt(blocks, live, l.segments, 0);
  }

  lemma FreedLast(l: Layout, i: int, live0: map<Addr, Chunk>, blocks0: map<Addr, Block>, live: map<Addr, Chunk>,
                  blocks: map<Addr, Block>)
    requires LayoutOk(l) && PartlyFreed(l, i, live0, blocks0, live, blocks)
    requires l.segments[i].base in blocks && blocks[l.segments[i].base].next == 0
    ensures i == |l.segments| - 1 && BlockSize(l.segments[i..]) == l.segments[i].size
  {
    assert LinkedAt(blocks, live, l.segments, i);
    NextIsZero(l);
    assert l.segments[i..] == [l.segments[i]] && l.segments[i..][1..] == [];
  }

  /** Releasing block i, which is not the last, is allowed, and the next block can still be read. */
  lemma ReleaseStep(l: Layout, i: int, live0: map<Addr, Chunk>, blocks0: map<Addr, Block>, live: map<Addr, Chunk>,
                    blocks: map<Addr, Block>)
    requires LayoutOk(l) && PartlyFreed(l, i, live0, blocks0, live, blocks) && SystemOwned(live0, l.segments)
    requires l.segments[i].base in blocks && blocks[l.segments[i].base].next != 0
    ensures l.segments[i].base in live && live[l.segments[i].base] == Chunk(l.segments[i].size, System)
    ensures var b := l.segments[i].base;
            PartlyFreed(l, i + 1, live0, blocks0, live - {b}, blocks - {b})
    ensures blocks[l.segments[i].base].next == l.segments[i + 1].base
    ensures var c := l.segments[i + 1].base;
            c in blocks && c != l.segments[i].base && blocks[c].size == l.segments[i + 1].size
    ensures BlockSize(l.segments[i..]) == l.segments[i].size + BlockSize(l.segments[i + 1..])
  {
    assert LinkedAt(blocks, live, l.segments, i);
    NextIsZero(l);
    BaseDistinct(l, i);
    BasesPush(l.segments, i);
    assert l.segments[i..][1..] == l.segments[i + 1..];
    forall k | i < k < |l.segments|
      ensures LinkedAt(blocks - {l.segments[i].base}, live - {l.segments[i].base}, l.segments, k)
    {
      assert LinkedAt(blocks, live, l.segments, k);
    }
    assert LinkedAt(blocks, live, l.segments, i + 1);
  }
}
