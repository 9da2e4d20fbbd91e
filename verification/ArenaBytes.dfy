/**
 The bytes of an arena counted in the memory: what it reports as allocated is what the live blocks in its hands add
 up to, and what its destruction takes out of the live memory.
 */
module ArenaBytes {
  import opened Common
  import opened SerialLayout
  import opened SerialArena
  import opened ThreadSafeArena

  /** The bytes of the live blocks at these addresses. */
  ghost function Bytes(live: map<Addr, Chunk>, at: set<Addr>): nat
    requires at <= live.Keys
  {
    if at == {} then 0
    else
      var a :| a in at;
      live[a].size + Bytes(live, at - {a})
  }

  lemma {:induction false} BytesWithout(live: map<Addr, Chunk>, at: set<Addr>, a: Addr)
    requires at <= live.Keys && a in at
    ensures Bytes(live, at) == live[a].size + Bytes(live, at - {a})
    decreases at
  {
    var b :| b in at && Bytes(live, at) == live[b].size + Bytes(live, at - {b});
    if a != b {
      BytesWithout(live, at - {b}, a);
      BytesWithout(live, at - {a}, b);
      assert at - {b} - {a} == at - {a} - {b};
    }
  }

  lemma {:induction false} BytesOfBoth(live: map<Addr, Chunk>, s: set<Addr>, t: set<Addr>)
    requires s <= live.Keys && t <= live.Keys && s !! t
    ensures Bytes(live, s + t) == Bytes(live, s) + Bytes(live, t)
    decreases s
  {
    if s == {} {
      assert s + t == t;
    } else {
      var a :| a in s;
      BytesWithout(live, s, a);
      BytesWithout(live, s + t, a);
      BytesOfBoth(live, s - {a}, t);
      assert s + t - {a} == s - {a} + t;
    }
  }

  /** Bytes depend on the blocks counted, not on what else is live. */
  lemma {:induction false} SameBytes(live: map<Addr, Chunk>, live': map<Addr, Chunk>, at: set<Addr>)
    requires at <= live.Keys && at <= live'.Keys && forall a :: a in at ==> live[a] == live'[a]
    ensures Bytes(live, at) == Bytes(live', at)
    decreases at
  {
    if at != {} {
      var a :| a in at;
      BytesWithout(live, at, a);
      BytesWithout(live', at, a);
      SameBytes(live, live', at - {a});
    }
  }

  // ----- one chain -----

  ghost predicate LiveAt(live: map<Addr, Chunk>, segments: seq<Segment>, i: nat)
    requires i < |segments|
  {
    segments[i].base in live && live[segments[i].base].size == segments[i].size
  }

  ghost predicate OtherBaseAt(segments: seq<Segment>, i: nat, j: nat)
    requires i < |segments| && j < |segments|
  {
    segments[i].base != segments[j].base
  }

  lemma {:induction false} ChainBytes(live: map<Addr, Chunk>, segments: seq<Segment>)
    requires forall i :: 0 <= i < |segments| ==> LiveAt(live, segments, i)
    requires forall i, j :: 0 <= i < j < |segments| ==> OtherBaseAt(segments, i, j)
    ensures Bases(segments) <= live.Keys && Bytes(live, Bases(segments)) == BlockSize(segments)
  {
    if segments == [] {
      assert Bases(segments) == {};
    } else {
      var first, rest := segments[0].base, segments[1..];
      forall i, j | 0 <= i < j < |rest|
        ensures OtherBaseAt(rest, i, j)
      {
        assert OtherBaseAt(segments, i + 1, j + 1);
      }
      forall i | 0 <= i < |rest|
        ensures LiveAt(live, rest, i) && rest[i].base != first
      {
        assert LiveAt(live, segments, i + 1) && OtherBaseAt(segments, 0, i + 1);
      }
      ChainBytes(live, rest);
      FirstAndRest(segments);
      assert LiveAt(live, segments, 0);
      BytesWithout(live, Bases(segments), first);
      assert Bases(segments) - {first} == Bases(rest);
    }
  }

  lemma FirstAndRest(segments: seq<Segment>)
    requires segments != []
    ensures Bases(segments) == {segments[0].base} + Bases(segments[1..])
  {
    forall b | b in Bases(segments)
      ensures b in {segments[0].base} + Bases(segments[1..])
    {
      var i :| 0 <= i < |segments| && segments[i].base == b;
      if i > 0 { assert segments[1..][i - 1].base == b; }
    }
    forall b | b in Bases(segments[1..])
      ensures b in Bases(segments)
    {
      var i :| 0 <= i < |segments| - 1 && segments[1..][i].base == b;
      assert segments[i + 1].base == b;
    }
  }

  /** A sound chain has live blocks of the sizes it knows, at different addresses. */
  lemma SoundBytes(l: Layout, blocks: map<Addr, Block>, live: map<Addr, Chunk>, r: Registers)
    requires Sound(l, blocks, live, r)
    ensures Bases(l.segments) <= live.Keys && Bytes(live, Bases(l.segments)) == BlockSize(l.segments)
  {
    forall i | 0 <= i < |l.segments|
      ensures LiveAt(live, l.segments, i) && SegmentOk(l.segments[i])
    {
      assert LinkedAt(blocks, live, l.segments, i) && SegmentAt(l.segments, i);
    }
    forall i, j | 0 <= i < j < |l.segments|
      ensures OtherBaseAt(l.segments, i, j)
    {
      assert ApartAt(l.segments, i, j);
    }
    ChainBytes(live, l.segments);
  }

  // ----- the list -----

  lemma {:induction false} ListBytes(live: map<Addr, Chunk>, layouts: seq<Layout>, n: nat)
    requires n <= |layouts| && Apart(layouts)
    requires forall i :: 0 <= i < |layouts| ==> CountedLive(live, layouts, i)
    ensures BasesBefore(layouts, n) <= live.Keys
    ensures Bytes(live, BasesBefore(layouts, n)) + TotalBlocks(layouts[n..]) == TotalBlocks(layouts)
  {
    if n == 0 {
      assert layouts[0..] == layouts;
    } else {
      ListBytes(live, layouts, n - 1);
      assert CountedLive(live, layouts, n - 1);
      NewBases(layouts, n - 1, n - 1);
      BytesOfBoth(live, BasesBefore(layouts, n - 1), Bases(layouts[n - 1].segments));
      assert layouts[n - 1..][1..] == layouts[n..];
    }
  }

  ghost predicate CountedLive(live: map<Addr, Chunk>, layouts: seq<Layout>, i: nat)
    requires i < |layouts|
  {
    Bases(layouts[i].segments) <= live.Keys && Bytes(live, Bases(layouts[i].segments)) == BlockSize(layouts[i].segments)
  }

  lemma {:induction false} NewBases(layouts: seq<Layout>, n: nat, k: nat)
    requires n <= k < |layouts| && Apart(layouts)
    ensures BasesBefore(layouts, n) !! Bases(layouts[k].segments)
  {
    if n > 0 {
      NewBases(layouts, n - 1, k);
      ApartBoth(layouts, n - 1, k);
    }
  }

  /** What SpaceAllocated adds up, and Reset returns, is the number of bytes in the arena's live blocks. */
  lemma AllocatedIsLive(arena: ThreadSafeArena)
    requires arena.Listed()
    ensures var all := BasesBefore(arena.layouts, |arena.layouts|);
            all <= arena.memory.live.Keys && Bytes(arena.memory.live, all) == TotalBlocks(arena.layouts)
  {
    var live, layouts := arena.memory.live, arena.layouts;
    forall i | 0 <= i < |layouts|
      ensures CountedLive(live, layouts, i)
    {
      assert SerialAt(arena.memory, arena.serials, layouts, i, arena.memory.blocks, live);
      SoundBytes(layouts[i], arena.memory.blocks, live, arena.serials[i].Fields());
    }
    ListBytes(live, layouts, |layouts|);
    assert layouts[|layouts|..] == [];
  }

  /** The size of the block that the user lent. */
  function LentBytes(layouts: seq<Layout>, userOwned: bool): nat {
    if userOwned && layouts != [] && layouts[|layouts| - 1].segments != [] then LastSize(layouts[|layouts| - 1]) else 0
  }

  /** The first block of the oldest arena is one of the blocks counted, with its size. */
  lemma HomeCounted(arena: ThreadSafeArena)
    requires arena.Listed() && arena.layouts != []
    ensures var layouts := arena.layouts; var last := layouts[|layouts| - 1];
            && last.segments != [] && HomeOf(last) in BasesBefore(layouts, |layouts|)
            && HomeOf(last) in arena.memory.live && arena.memory.live[HomeOf(last)].size == LastSize(last)
  {
    var n, blocks, live := |arena.layouts| - 1, arena.memory.blocks, arena.memory.live;
    assert SerialAt(arena.memory, arena.serials, arena.layouts, n, blocks, live);
    var segments := arena.layouts[n].segments;
    assert LinkedAt(blocks, live, segments, |segments| - 1);
  }

  /** Conservation at the end: what the destructor leaves live is what was live, less the bytes that SpaceAllocated
      says, except for a block that the user lent. */
  lemma DestructionBalances(arena: ThreadSafeArena)
    requires arena.Listed()
    ensures var live := arena.memory.live;
            var left := live - OwnBlocks(arena.layouts, arena.userOwned);
            Bytes(left, left.Keys) + TotalBlocks(arena.layouts)
            == Bytes(live, live.Keys) + LentBytes(arena.layouts, arena.userOwned)
  {
    var live, layouts, own := arena.memory.live, arena.layouts, OwnBlocks(arena.layouts, arena.userOwned);
    var left, all := live - own, BasesBefore(layouts, |layouts|);
    AllocatedIsLive(arena);
    if arena.userOwned {
      HomeCounted(arena);
      BytesWithout(live, all, HomeOf(layouts[|layouts| - 1]));
    }
    assert left.Keys == live.Keys - own;
    BytesOfBoth(live, left.Keys, own);
    assert left.Keys + own == live.Keys;
    SameBytes(live, left, left.Keys);
  }
}
