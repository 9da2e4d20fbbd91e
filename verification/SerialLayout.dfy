/**
 The geometry of a SerialArena: blocks with a header at the bottom, data growing up from the
 header, cleanup nodes growing down from the top, and older blocks chained behind the newest.
 */
module SerialLayout {

  type Addr = nat

  /** AlignUpTo8(sizeof(Block)), AlignUpTo8(sizeof(CleanupNode)), sizeof(SerialArena) and
      sizeof(AllocationPolicy) with 8-byte pointers and sizes. */
  const HEADER: nat := 24
  const CLEANUP: nat := 16
  const SERIAL: nat := 56
  const POLICY: nat := 40

  function AlignUpTo8(n: nat): nat {
    (n + 7) / 8 * 8
  }

  /** n & -8 */
  function AlignDown8(n: nat): nat {
    n - n % 8
  }

  lemma AlignUpTo8Least(n: nat, m: nat)
    requires m % 8 == 0 && n <= m
    ensures AlignUpTo8(n) % 8 == 0 && n <= AlignUpTo8(n) <= m
  {
  }

  /** One block: data fills [base + HEADER, dataEnd), and `nodes` cleanup nodes lie below `top`. */
  datatype Segment = Segment(base: Addr, size: nat, dataEnd: Addr, nodes: nat, top: Addr)

  /** The lowest cleanup node of a block, or its top when there is none: limit_, later Block::start. */
  function Start(g: Segment): int {
    g.top - CLEANUP * g.nodes
  }

  datatype Range = Range(addr: Addr, size: nat)

  /** Blocks newest first, and the data ranges handed out, oldest first. */
  datatype Layout = Layout(segments: seq<Segment>, data: seq<Range>)

  function Limit(g: Segment): Addr {
    g.base + AlignDown8(g.size)
  }

  ghost predicate SegmentOk(g: Segment) {
    && 0 < g.base && g.base % 8 == 0
    && g.base + HEADER <= g.dataEnd <= Start(g) <= g.top <= g.base + g.size
    && g.dataEnd % 8 == 0
    && (g.top == g.base + g.size || g.top == Limit(g))
  }

  predicate RangesApart(a: int, n: nat, b: int, m: nat) {
    a + n <= b || b + m <= a
  }

  predicate SegmentsApart(g: Segment, h: Segment) {
    RangesApart(g.base, g.size, h.base, h.size)
  }

  predicate Inside(g: Segment, r: Range) {
    g.base + HEADER <= r.addr && r.addr + r.size <= g.dataEnd && r.addr % 8 == 0
  }

  ghost predicate InSome(segments: seq<Segment>, r: Range) {
    exists i :: 0 <= i < |segments| && Inside(segments[i], r)
  }

  ghost predicate SegmentAt(segments: seq<Segment>, i: nat)
    requires i < |segments|
  {
    SegmentOk(segments[i])
  }

  predicate ApartAt(segments: seq<Segment>, i: nat, j: nat)
    requires i < |segments| && j < |segments|
  {
    SegmentsApart(segments[i], segments[j])
  }

  ghost predicate DataAt(l: Layout, k: nat)
    requires k < |l.data|
  {
    InSome(l.segments, l.data[k])
  }

  predicate DataApartAt(data: seq<Range>, j: nat, k: nat)
    requires j < |data| && k < |data|
  {
    RangesApart(data[j].addr, data[j].size, data[k].addr, data[k].size)
  }

  ghost predicate SegmentsOk(segments: seq<Segment>) {
    && (forall i :: 0 <= i < |segments| ==> SegmentAt(segments, i))
    && (forall i, j :: 0 <= i < j < |segments| ==> ApartAt(segments, i, j))
  }

  /** Blocks with data below their nodes, no two overlapping; every range handed out inside a block, no two
      overlapping. */
  ghost predicate LayoutOk(l: Layout) {
    && l.segments != [] && SegmentsOk(l.segments)
    && (forall k :: 0 <= k < |l.data| ==> DataAt(l, k))
    && (forall j, k :: 0 <= j < k < |l.data| ==> DataApartAt(l.data, j, k))
  }

  // ----- the steps of a serial arena -----

  function First(base: Addr, size: nat): Layout
    requires HEADER + SERIAL <= size
  {
    Layout([Segment(base, size, base + HEADER + SERIAL, 0, base + AlignDown8(size))],
           [Range(base + HEADER, SERIAL)])
  }

  function Room(l: Layout): int
    requires l.segments != []
  {
    Start(l.segments[0]) - l.segments[0].dataEnd
  }

  /** AllocateFromExisting: the data pointer moves up by n. */
  function Bump(l: Layout, n: nat): Layout
    requires l.segments != []
  {
    var g := l.segments[0];
    Layout([g.(dataEnd := g.dataEnd + n)] + l.segments[1..], l.data + [Range(g.dataEnd, n)])
  }

  /** AllocateFromExistingWithCleanupFallback: the limit also moves down by one node. */
  function BumpWithCleanup(l: Layout, n: nat): Layout
    requires l.segments != []
  {
    var g := l.segments[0];
    Layout([g.(dataEnd := g.dataEnd + n, nodes := g.nodes + 1)] + l.segments[1..], l.data + [Range(g.dataEnd, n)])
  }

  /** AllocateNewBlock: a fresh block in front, its limit at the raw size. */
  function Grow(l: Layout, base: Addr, size: nat): Layout {
    Layout([Segment(base, size, base + HEADER, 0, base + size)] + l.segments, l.data)
  }

  // ----- each step keeps the geometry -----

  lemma FirstOk(base: Addr, size: nat)
    requires 0 < base && base % 8 == 0 && HEADER + SERIAL <= size
    ensures LayoutOk(First(base, size))
  {
    var l := First(base, size);
    assert AlignDown8(size) >= HEADER + SERIAL;
    assert Inside(l.segments[0], l.data[0]);
  }

  /** Where a range handed out lies. */
  lemma DataPlace(l: Layout, k: nat) returns (i: nat)
    requires LayoutOk(l) && k < |l.data|
    ensures i < |l.segments| && Inside(l.segments[i], l.data[k]) && SegmentOk(l.segments[i])
  {
    assert DataAt(l, k);
    i :| 0 <= i < |l.segments| && Inside(l.segments[i], l.data[k]);
    assert SegmentAt(l.segments, i);
  }

  /** Two blocks are the same or do not overlap. */
  lemma BlocksApart(segments: seq<Segment>, i: nat, j: nat)
    requires SegmentsOk(segments) && i < |segments| && j < |segments| && i != j
    ensures SegmentsApart(segments[i], segments[j]) && SegmentOk(segments[i]) && SegmentOk(segments[j])
  {
    assert SegmentAt(segments, i) && SegmentAt(segments, j);
    if i < j { assert ApartAt(segments, i, j); } else { assert ApartAt(segments, j, i); }
  }

  /** Replacing the newest segment by one with the same block and at least its data keeps old ranges inside. */
  lemma StillInside(l: Layout, g: Segment, r: Range)
    requires l.segments != [] && g.base == l.segments[0].base && l.segments[0].dataEnd <= g.dataEnd
    requires InSome(l.segments, r)
    ensures InSome([g] + l.segments[1..], r)
  {
    var i :| 0 <= i < |l.segments| && Inside(l.segments[i], r);
    assert Inside(([g] + l.segments[1..])[i], r);
  }

  /** Old data never reaches the gap of the newest block. */
  lemma BelowGap(l: Layout, k: nat, n: nat)
    requires LayoutOk(l) && k < |l.data| && n <= Room(l)
    ensures RangesApart(l.data[k].addr, l.data[k].size, l.segments[0].dataEnd, n)
  {
    var i := DataPlace(l, k);
    if i > 0 { BlocksApart(l.segments, 0, i); }
  }

  lemma ChangedBlocksOk(segments: seq<Segment>, g: Segment)
    requires segments != [] && SegmentsOk(segments) && SegmentOk(g)
    requires g.base == segments[0].base && g.size == segments[0].size
    ensures SegmentsOk([g] + segments[1..])
  {
    var all := [g] + segments[1..];
    forall i | 0 <= i < |all|
      ensures SegmentAt(all, i)
    {
      assert SegmentAt(segments, i);
    }
    forall i, j | 0 <= i < j < |all|
      ensures ApartAt(all, i, j)
    {
      assert ApartAt(segments, i, j);
    }
  }

  /** The newest segment was changed within its block, and one range at its old data end was added. */
  lemma ChangeNewestOk(l: Layout, g: Segment, n: nat)
    requires LayoutOk(l) && SegmentOk(g) && n <= Room(l)
    requires g.base == l.segments[0].base && g.size == l.segments[0].size && g.dataEnd == l.segments[0].dataEnd + n
    ensures LayoutOk(Layout([g] + l.segments[1..], l.data + [Range(l.segments[0].dataEnd, n)]))
  {
    var r := Range(l.segments[0].dataEnd, n);
    var segments, data := [g] + l.segments[1..], l.data + [r];
    ChangedBlocksOk(l.segments, g);
    forall k | 0 <= k < |data|
      ensures DataAt(Layout(segments, data), k)
    {
      if k < |l.data| {
        assert DataAt(l, k);
        StillInside(l, g, l.data[k]);
      } else {
        NewInside(l, g, n);
      }
    }
    forall j, k | 0 <= j < k < |data|
      ensures DataApartAt(data, j, k)
    {
      if k == |l.data| { BelowGap(l, j, n); } else { assert DataApartAt(l.data, j, k); }
    }
  }

  lemma NewInside(l: Layout, g: Segment, n: nat)
    requires LayoutOk(l)
    requires g.base == l.segments[0].base && g.dataEnd == l.segments[0].dataEnd + n
    ensures InSome([g] + l.segments[1..], Range(l.segments[0].dataEnd, n))
  {
    assert SegmentAt(l.segments, 0);
    assert Inside(([g] + l.segments[1..])[0], Range(l.segments[0].dataEnd, n));
  }

  lemma SumOfEights(a: nat, b: nat)
    requires a % 8 == 0 && b % 8 == 0
    ensures (a + b) % 8 == 0
  {
  }

  lemma MoreDataOk(g: Segment, n: nat, c: nat)
    requires SegmentOk(g) && n % 8 == 0 && g.dataEnd + n + CLEANUP * c <= Start(g)
    ensures SegmentOk(g.(dataEnd := g.dataEnd + n, nodes := g.nodes + c))
  {
    SumOfEights(g.dataEnd, n);
  }

  /** The data pointer moved up by n and the limit down by c nodes, within the room there was. */
  lemma MoveOk(l: Layout, g: Segment, n: nat, c: nat)
    requires LayoutOk(l) && g == l.segments[0] && n % 8 == 0 && n + CLEANUP * c <= Room(l)
    ensures LayoutOk(Layout([g.(dataEnd := g.dataEnd + n, nodes := g.nodes + c)] + l.segments[1..],
                            l.data + [Range(g.dataEnd, n)]))
  {
    assert SegmentAt(l.segments, 0);
    MoreDataOk(g, n, c);
    ChangeNewestOk(l, g.(dataEnd := g.dataEnd + n, nodes := g.nodes + c), n);
  }

  lemma BumpOk(l: Layout, n: nat)
    requires LayoutOk(l) && n % 8 == 0 && n <= Room(l)
    ensures LayoutOk(Bump(l, n))
  {
    MoveOk(l, l.segments[0], n, 0);
  }

  lemma BumpWithCleanupOk(l: Layout, n: nat)
    requires LayoutOk(l) && n % 8 == 0 && n + CLEANUP <= Room(l)
    ensures LayoutOk(BumpWithCleanup(l, n))
  {
    MoveOk(l, l.segments[0], n, 1);
  }

  lemma GrowKeepsInside(l: Layout, base: Addr, size: nat, r: Range)
    requires InSome(l.segments, r)
    ensures InSome(Grow(l, base, size).segments, r)
  {
    var i :| 0 <= i < |l.segments| && Inside(l.segments[i], r);
    assert Inside(Grow(l, base, size).segments[i + 1], r);
  }

  lemma NewSegmentOk(base: Addr, size: nat)
    requires 0 < base && base % 8 == 0 && HEADER <= size
    ensures SegmentOk(Segment(base, size, base + HEADER, 0, base + size))
  {
    SumOfEights(base, HEADER);
  }

  lemma MoreBlocksOk(segments: seq<Segment>, g: Segment)
    requires SegmentsOk(segments) && SegmentOk(g)
    requires forall i :: 0 <= i < |segments| ==> SegmentsApart(g, segments[i])
    ensures SegmentsOk([g] + segments)
  {
    var all := [g] + segments;
    forall i | 0 <= i < |all|
      ensures SegmentAt(all, i)
    {
      if i > 0 { assert SegmentAt(segments, i - 1); }
    }
    forall i, j | 0 <= i < j < |all|
      ensures ApartAt(all, i, j)
    {
      if i > 0 { assert ApartAt(segments, i - 1, j - 1); }
    }
  }

  lemma GrowOk(l: Layout, base: Addr, size: nat)
    requires LayoutOk(l) && 0 < base && base % 8 == 0 && HEADER <= size
    requires forall i :: 0 <= i < |l.segments| ==> RangesApart(base, size, l.segments[i].base, l.segments[i].size)
    ensures LayoutOk(Grow(l, base, size))
  {
    NewSegmentOk(base, size);
    MoreBlocksOk(l.segments, Segment(base, size, base + HEADER, 0, base + size));
    forall k | 0 <= k < |l.data|
      ensures DataAt(Grow(l, base, size), k)
    {
      assert DataAt(l, k);
      GrowKeepsInside(l, base, size, l.data[k]);
    }
    forall j, k | 0 <= j < k < |l.data|
      ensures DataApartAt(Grow(l, base, size).data, j, k)
    {
      assert DataApartAt(l.data, j, k);
    }
  }

  // ----- cleanup nodes -----

  /** The addresses of the `n` cleanup nodes below `top`, lowest and most recently registered first. */
  function Slots(top: int, n: nat): seq<int> {
    if n == 0 then [] else [top - CLEANUP * n] + Slots(top, n - 1)
  }

  /** All cleanup nodes, the most recently registered first. */
  function AllSlots(segments: seq<Segment>): seq<int> {
    if segments == [] then [] else Slots(segments[0].top, segments[0].nodes) + AllSlots(segments[1..])
  }

  lemma {:induction false} SlotsAt(top: int, n: nat)
    ensures |Slots(top, n)| == n
    ensures forall k :: 0 <= k < n ==> Slots(top, n)[k] == top - CLEANUP * (n - k)
  {
    if n > 0 { SlotsAt(top, n - 1); }
  }

  lemma {:induction false} SlotSegment(segments: seq<Segment>, x: int) returns (i: nat, c: nat)
    requires x in AllSlots(segments)
    ensures i < |segments| && 1 <= c <= segments[i].nodes && x == segments[i].top - CLEANUP * c
  {
    var g := segments[0];
    if x in Slots(g.top, g.nodes) {
      SlotsAt(g.top, g.nodes);
      var k :| 0 <= k < g.nodes && Slots(g.top, g.nodes)[k] == x;
      i, c := 0, g.nodes - k;
    } else {
      i, c := SlotSegment(segments[1..], x);
      i := i + 1;
    }
  }

  /** Where a cleanup node lies: inside one block, above its data. */
  lemma SlotPlace(l: Layout, x: int) returns (i: nat, c: nat)
    requires LayoutOk(l) && x in AllSlots(l.segments)
    ensures i < |l.segments| && 1 <= c <= l.segments[i].nodes && x == l.segments[i].top - CLEANUP * c
    ensures l.segments[i].dataEnd <= x && x + CLEANUP <= l.segments[i].base + l.segments[i].size
  {
    i, c := SlotSegment(l.segments, x);
    assert SegmentAt(l.segments, i);
  }

  /** Data is aligned, inside a block, and clear of every header. */
  lemma DataClearOfHeaders(l: Layout, k: nat, i: nat)
    requires LayoutOk(l) && k < |l.data| && i < |l.segments|
    ensures l.data[k].addr % 8 == 0 && InSome(l.segments, l.data[k])
    ensures RangesApart(l.data[k].addr, l.data[k].size, l.segments[i].base, HEADER)
  {
    var j := DataPlace(l, k);
    if i != j { BlocksApart(l.segments, i, j); }
  }

  /** No two ranges handed out overlap. */
  lemma DataDisjoint(l: Layout, j: nat, k: nat)
    requires LayoutOk(l) && j < k < |l.data|
    ensures RangesApart(l.data[j].addr, l.data[j].size, l.data[k].addr, l.data[k].size)
  {
    assert DataApartAt(l.data, j, k);
  }

  /** Data is clear of every cleanup node. */
  lemma DataClearOfNodes(l: Layout, k: nat, x: int)
    requires LayoutOk(l) && k < |l.data| && x in AllSlots(l.segments)
    ensures RangesApart(l.data[k].addr, l.data[k].size, x, CLEANUP)
  {
    var j := DataPlace(l, k);
    var m, c := SlotPlace(l, x);
    if m != j { BlocksApart(l.segments, m, j); }
  }

  /** Cleanup nodes are clear of every header and of each other. */
  lemma NodesDisjoint(l: Layout, x: int, y: int, i: nat)
    requires LayoutOk(l) && x in AllSlots(l.segments) && i < |l.segments|
    ensures RangesApart(x, CLEANUP, l.segments[i].base, HEADER)
    ensures y in AllSlots(l.segments) && x != y ==> RangesApart(x, CLEANUP, y, CLEANUP)
  {
    var m, c := SlotPlace(l, x);
    assert SegmentAt(l.segments, m);
    if m != i { BlocksApart(l.segments, m, i); }
    if y in AllSlots(l.segments) && x != y { TwoNodesApart(l, x, y); }
  }

  lemma SlotsApart(top: int, c: nat, d: nat)
    requires c != d
    ensures RangesApart(top - CLEANUP * c, CLEANUP, top - CLEANUP * d, CLEANUP)
  {
  }

  lemma TwoNodesApart(l: Layout, x: int, y: int)
    requires LayoutOk(l) && x in AllSlots(l.segments) && y in AllSlots(l.segments) && x != y
    ensures RangesApart(x, CLEANUP, y, CLEANUP)
  {
    var m, c := SlotPlace(l, x);
    var n, d := SlotPlace(l, y);
    if m != n {
      BlocksApart(l.segments, m, n);
    } else {
      SlotsApart(l.segments[m].top, c, d);
    }
  }

  /** Cleanup nodes are 8-aligned in blocks whose size is a multiple of 8. */
  lemma NodesAligned(l: Layout, x: int)
    requires LayoutOk(l) && x in AllSlots(l.segments)
    requires forall j :: 0 <= j < |l.segments| ==> l.segments[j].size % 8 == 0
    ensures x % 8 == 0
  {
    var m, c := SlotPlace(l, x);
    assert SegmentAt(l.segments, m);
    NodeAligned(l.segments[m], c);
  }

  lemma NodeAligned(g: Segment, c: nat)
    requires SegmentOk(g) && g.size % 8 == 0
    ensures (g.top - CLEANUP * c) % 8 == 0
  {
    SumOfEights(g.base, g.size);
    BelowTopAligned(g.top, c);
  }

  lemma BelowTopAligned(top: int, c: nat)
    requires top % 8 == 0
    ensures (top - CLEANUP * c) % 8 == 0
  {
    assert top == 8 * (top / 8);
    assert top - CLEANUP * c == 8 * (top / 8 - 2 * c);
  }

  /** Registering a cleanup puts its node in front of all earlier ones. */
  lemma SlotsAfterCleanup(l: Layout, n: nat)
    requires l.segments != []
    ensures AllSlots(BumpWithCleanup(l, n).segments) == [Start(l.segments[0]) - CLEANUP] + AllSlots(l.segments)
  {
    var g := l.segments[0];
    assert BumpWithCleanup(l, n).segments[1..] == l.segments[1..];
    assert Slots(g.top, g.nodes + 1) == [Start(g) - CLEANUP] + Slots(g.top, g.nodes);
  }

  /** Plain data and new blocks register nothing. */
  lemma SlotsAfterOther(l: Layout, n: nat, base: Addr, size: nat)
    requires l.segments != []
    ensures AllSlots(Bump(l, n).segments) == AllSlots(l.segments)
    ensures AllSlots(Grow(l, base, size).segments) == AllSlots(l.segments)
  {
    assert Bump(l, n).segments[1..] == l.segments[1..];
    assert Grow(l, base, size).segments[1..] == l.segments;
  }

  /** Every node lies above the room of the newest block, or in another block. */
  lemma NewNodeIsNew(l: Layout)
    requires LayoutOk(l) && CLEANUP <= Room(l)
    ensures Start(l.segments[0]) - CLEANUP !in AllSlots(l.segments)
  {
    if Start(l.segments[0]) - CLEANUP in AllSlots(l.segments) {
      var i, c := SlotPlace(l, Start(l.segments[0]) - CLEANUP);
      assert SegmentAt(l.segments, 0);
      if i > 0 { BlocksApart(l.segments, 0, i); }
    }
  }

  // ----- what CleanupList visits -----

  /** The loop over nodes from `it` up to `limit`. */
  function Walk(it: int, limit: int): seq<int>
    decreases limit - it
  {
    if it >= limit then [] else [it] + Walk(it + CLEANUP, limit)
  }

  /** One block: the limit is the size rounded down to 8, and the loop only runs when the node count,
      a pointer difference, is positive. C++ leaves the difference open when the distance is no multiple
      of a node's size; here it is rounded down, which is what a shift of the distance computes. */
  function Visited(g: Segment): seq<int> {
    if (Limit(g) - Start(g)) / CLEANUP > 0 then Walk(Start(g), Limit(g)) else []
  }

  function AllVisited(segments: seq<Segment>): seq<int> {
    if segments == [] then [] else Visited(segments[0]) + AllVisited(segments[1..])
  }

  /** The rounded limit is the block's real top, or the block does not hold exactly one node. */
  predicate CountsNodes(g: Segment) {
    g.top == Limit(g) || g.nodes != 1
  }

  lemma {:induction false} WalkIsSlots(top: int, n: nat, r: nat)
    requires r < 8
    ensures Walk(top - CLEANUP * n, top - r) == Slots(top, n)
    decreases n
  {
    if n > 0 { WalkIsSlots(top, n - 1, r); }
  }

  lemma CountPositive(n: nat, r: nat)
    requires r < 8
    ensures (CLEANUP * n - r) / CLEANUP > 0 <==> (r == 0 && n >= 1) || n >= 2
  {
  }

  lemma VisitedExact(g: Segment)
    requires SegmentOk(g)
    ensures Visited(g) == if CountsNodes(g) then Slots(g.top, g.nodes) else []
  {
    var r := g.top - Limit(g);
    assert 0 <= r < 8;
    CountPositive(g.nodes, r);
    assert Limit(g) - Start(g) == CLEANUP * g.nodes - r;
    WalkIsSlots(g.top, g.nodes, r);
  }

  lemma TailOk(segments: seq<Segment>)
    requires SegmentsOk(segments) && segments != []
    ensures SegmentsOk(segments[1..]) && SegmentOk(segments[0])
  {
    assert SegmentAt(segments, 0);
    forall i | 0 <= i < |segments| - 1
      ensures SegmentAt(segments[1..], i)
    {
      assert SegmentAt(segments, i + 1);
    }
    forall i, j | 0 <= i < j < |segments| - 1
      ensures ApartAt(segments[1..], i, j)
    {
      assert ApartAt(segments, i + 1, j + 1);
    }
  }

  lemma {:induction false} VisitedShorter(segments: seq<Segment>)
    requires SegmentsOk(segments)
    ensures |AllVisited(segments)| <= |AllSlots(segments)|
    ensures |AllVisited(segments)| == |AllSlots(segments)| <==>
            forall i :: 0 <= i < |segments| ==> CountsNodes(segments[i])
    ensures (forall i :: 0 <= i < |segments| ==> CountsNodes(segments[i])) ==>
            AllVisited(segments) == AllSlots(segments)
  {
    if segments != [] {
      TailOk(segments);
      VisitedShorter(segments[1..]);
      VisitedExact(segments[0]);
      SlotsAt(segments[0].top, segments[0].nodes);
      assert forall i :: 1 <= i < |segments| ==> segments[i] == segments[1..][i - 1];
    }
  }

  /** CleanupList visits every registered node exactly once, latest registration first, if and only if each
      block either ends on a multiple of 8 or does not hold exactly one node; otherwise it skips nodes. */
  lemma CleanupsAllVisitedIff(l: Layout)
    requires LayoutOk(l)
    ensures AllVisited(l.segments) == AllSlots(l.segments)
            <==> forall i :: 0 <= i < |l.segments| ==> CountsNodes(l.segments[i])
  {
    VisitedShorter(l.segments);
  }

  /** Block sizes that are multiples of 8 are enough. */
  lemma EightfoldSizesCount(l: Layout)
    requires LayoutOk(l) && forall i :: 0 <= i < |l.segments| ==> l.segments[i].size % 8 == 0
    ensures AllVisited(l.segments) == AllSlots(l.segments)
  {
    forall i | 0 <= i < |l.segments|
      ensures CountsNodes(l.segments[i])
    {
      assert SegmentAt(l.segments, i);
    }
    CleanupsAllVisitedIff(l);
  }

  /** A second block of 1001 bytes with one registered cleanup: the cleanup never runs. */
  lemma OddBlockSkipsCleanup(l: Layout)
    requires l == BumpWithCleanup(Grow(First(1024, 256), 4096, 1001), 0)
    ensures AllSlots(l.segments) == [4096 + 985] && AllVisited(l.segments) == []
  {
    var first := First(1024, 256);
    var grown := Grow(first, 4096, 1001);
    SlotsAfterOther(first, 0, 4096, 1001);
    SlotsAfterCleanup(grown, 0);
    assert AllSlots(first.segments) == [] by { assert first.segments[1..] == []; }
    var g := l.segments[0];
    assert g == Segment(4096, 1001, 4120, 1, 5097);
    assert Limit(g) == 5096 && Visited(g) == [];
    assert l.segments[1..] == first.segments && first.segments[1..] == [];
    assert Visited(first.segments[0]) == [];
  }

  // ----- space accounting -----

  function DataSize(data: seq<Range>): nat {
    if data == [] then 0 else DataSize(data[..|data| - 1]) + data[|data| - 1].size
  }

  function BlockSize(segments: seq<Segment>): nat {
    if segments == [] then 0 else segments[0].size + BlockSize(segments[1..])
  }

  /** The bytes of data in the blocks: what space_used_ and the current block account for. */
  function Filled(segments: seq<Segment>): int {
    if segments == [] then 0 else segments[0].dataEnd - segments[0].base - HEADER + Filled(segments[1..])
  }

  ghost predicate Accounted(l: Layout) {
    Filled(l.segments) == DataSize(l.data)
  }

  lemma StepAccounted(l: Layout, n: nat, base: Addr, size: nat)
    requires l.segments != [] && Accounted(l)
    ensures Accounted(Bump(l, n)) && Accounted(Grow(l, base, size))
    ensures Accounted(BumpWithCleanup(l, n))
    ensures BlockSize(BumpWithCleanup(l, n).segments) == BlockSize(l.segments)
    ensures BlockSize(Bump(l, n).segments) == BlockSize(l.segments)
    ensures BlockSize(Grow(l, base, size).segments) == BlockSize(l.segments) + size
  {
    var r := Range(l.segments[0].dataEnd, n);
    assert (l.data + [r])[..|l.data|] == l.data;
    assert Bump(l, n).segments[1..] == l.segments[1..];
    assert Grow(l, base, size).segments[1..] == l.segments;
    assert BumpWithCleanup(l, n).segments[1..] == l.segments[1..];
  }

  // ----- over-aligned requests (arena.h) -----

  /** (ptr + align - 1) & (~align + 1), for a power of two: round up to a multiple of `align`. */
  function AlignTo(p: Addr, align: nat): Addr
    requires align > 0
  {
    (p + align - 1) / align * align
  }

  predicate PowerOfTwo(n: nat) {
    n == 1 || (n > 1 && n % 2 == 0 && PowerOfTwo(n / 2))
  }

  lemma {:induction false} PowerAbove8(align: nat)
    requires PowerOfTwo(align) && 8 < align
    ensures align % 8 == 0
  {
    if align > 16 {
      PowerAbove8(align / 2);
    } else {
      assert PowerOfTwo(align / 2) && PowerOfTwo(align / 2 / 2) && PowerOfTwo(align / 2 / 2 / 2);
    }
  }

  ghost predicate MultipleOf(q: nat, n: nat) {
    exists k: nat :: q == k * n
  }

  /** An object of `size` bytes at the aligned address fits in the size + align - 8 bytes that were requested. */
  lemma AlignedFits(p: Addr, size: nat, align: nat)
    requires p % 8 == 0 && PowerOfTwo(align) && 8 < align
    ensures MultipleOf(AlignTo(p, align), align)
    ensures p <= AlignTo(p, align) && AlignTo(p, align) + size <= p + (size + align - 8)
  {
    PowerAbove8(align);
    RoundUpBounds(p, align);
    RoundUpGap(p, align, (p + align - 1) / align);
  }

  lemma RoundUpGap(p: Addr, align: nat, k: nat)
    requires p % 8 == 0 && align % 8 == 0 && p <= k * align < p + align
    ensures k * align <= p + align - 8
  {
    MultipleIsEights(k, align / 8, align);
    GapOfEights(k * (align / 8), p, align);
  }

  lemma MultipleIsEights(k: nat, m: nat, align: nat)
    requires align == 8 * m
    ensures k * align == 8 * (k * m)
  {
  }

  lemma GapOfEights(q: nat, p: nat, align: nat)
    requires p % 8 == 0 && align % 8 == 0 && p <= 8 * q < p + align
    ensures 8 * q <= p + align - 8
  {
    assert p == 8 * (p / 8) && align == 8 * (align / 8);
  }

  lemma RoundUpBounds(p: nat, align: nat)
    requires align > 0
    ensures p <= AlignTo(p, align) < p + align
  {
    var k := (p + align - 1) / align;
    assert p + align - 1 == k * align + (p + align - 1) % align;
  }
}
