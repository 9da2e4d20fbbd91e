/**
 Runs of a ThreadSafeArena: any sequence of requests by any threads, one at a time. Nothing handed out
 overlaps, and every registered cleanup is kept for the teardown.
 */
module ArenaRuns {
  import opened Common
  import opened SerialLayout
  import opened SerialArena
  import opened SerialRuns
  import opened ThreadSafeArena

  datatype Request =
    | Data(me: nat, n: nat)
    | Cleanup(me: nat, elem: Addr, cleanup: nat)

  function SizeOf(q: Request): nat {
    if q.Data? then q.n else 0
  }

  predicate Aligned(requests: seq<Request>) {
    forall i :: 0 <= i < |requests| ==> SizeOf(requests[i]) % 8 == 0
  }

  function Requested(requests: seq<Request>): nat {
    if requests == [] then 0 else Requested(requests[..|requests| - 1]) + SizeOf(requests[|requests| - 1])
  }

  function NodesOf(requests: seq<Request>): multiset<CleanupNode> {
    if requests == [] then multiset{}
    else
      var q := requests[|requests| - 1];
      NodesOf(requests[..|requests| - 1]) + if q.Cleanup? then multiset{CleanupNode(q.elem, q.cleanup)} else multiset{}
  }

  // ----- where ranges are in the list -----

  datatype Place = Place(arena: nat, index: nat)

  ghost predicate PlacedAt(layouts: seq<Layout>, r: Range, p: Place) {
    p.arena < |layouts| && p.index < |layouts[p.arena].data| && layouts[p.arena].data[p.index] == r
  }

  ghost predicate DistinctAt(places: seq<Place>, i: nat, j: nat)
    requires i < |places| && j < |places|
  {
    places[i] != places[j]
  }

  /** Each range is among the data of some arena of the list, no two in the same place. */
  ghost predicate Placed(layouts: seq<Layout>, ranges: seq<Range>, places: seq<Place>) {
    && |places| == |ranges|
    && (forall i :: 0 <= i < |ranges| ==> PlacedAt(layouts, ranges[i], places[i]))
    && (forall i, j :: 0 <= i < j < |places| ==> DistinctAt(places, i, j))
  }

  /** The places after `d` arenas were put in front. */
  function Moved(places: seq<Place>, d: nat): (moved: seq<Place>)
    ensures |moved| == |places|
    ensures forall i :: 0 <= i < |places| ==> moved[i] == Place(places[i].arena + d, places[i].index)
  {
    seq(|places|, i requires 0 <= i < |places| => Place(places[i].arena + d, places[i].index))
  }

  lemma StillPlaced(before: seq<Layout>, after: seq<Layout>, k: nat, more: seq<Range>, r: Range, p: Place)
    requires Extends(before, after, k) && PlacedAt(before, r, p)
    ensures |after| >= |before| && PlacedAt(after, r, Place(p.arena + (|after| - |before|), p.index))
    ensures p.arena + (|after| - |before|) == k ==> p.index < |DataBefore(before, after, k)|
  {
    if |after| == |before| {
      if p.arena == k {
        assert before[k].data[p.index] == after[k].data[p.index];
      }
    } else {
      assert after[p.arena + 1] == before[p.arena];
    }
  }

  /** One more range, at the end of the data of the arena that served it. */
  lemma PlaceMore(before: seq<Layout>, after: seq<Layout>, k: nat, r: Range, ranges: seq<Range>, places: seq<Place>)
    returns (places': seq<Place>)
    requires Extends(before, after, k) && after[k].data == DataBefore(before, after, k) + [r]
    requires Placed(before, ranges, places)
    ensures Placed(after, ranges + [r], places')
  {
    var d := if |after| == |before| then 0 else 1;
    var moved := Moved(places, d);
    places' := moved + [Place(k, |DataBefore(before, after, k)|)];
    forall i | 0 <= i < |ranges| + 1
      ensures PlacedAt(after, (ranges + [r])[i], places'[i])
      ensures i < |ranges| ==> places'[i] != places'[|ranges|]
    {
      if i < |ranges| {
        assert PlacedAt(before, ranges[i], places[i]);
        StillPlaced(before, after, k, [r], ranges[i], places[i]);
      }
    }
    forall i, j | 0 <= i < j < |places'|
      ensures DistinctAt(places', i, j)
    {
      if j < |places| { assert DistinctAt(places, i, j); }
    }
  }

  // ----- what teardown will run -----

  lemma {:induction false} FlatChanged(cleanups: seq<seq<CleanupNode>>, k: nat, x: CleanupNode, n: nat)
    requires k < |cleanups| && n <= |cleanups|
    ensures multiset(Flat(cleanups[k := [x] + cleanups[k]], n))
            == multiset(Flat(cleanups, n)) + if k < n then multiset{x} else multiset{}
  {
    if n > 0 {
      FlatChanged(cleanups, k, x, n - 1);
      assert cleanups[k := [x] + cleanups[k]][n - 1] == if k == n - 1 then [x] + cleanups[k] else cleanups[n - 1];
    }
  }

  lemma {:induction false} FlatInFront(first: seq<CleanupNode>, cleanups: seq<seq<CleanupNode>>, n: nat)
    requires n <= |cleanups|
    ensures Flat([first] + cleanups, n + 1) == first + Flat(cleanups, n)
  {
    if n > 0 {
      FlatInFront(first, cleanups, n - 1);
      assert ([first] + cleanups)[n] == cleanups[n - 1];
      Associate(first, Flat(cleanups, n - 1), cleanups[n - 1]);
    } else {
      assert Flat([first] + cleanups, 0) + ([first] + cleanups)[0] == first;
    }
  }

  function Kept(cleanups: seq<seq<CleanupNode>>): multiset<CleanupNode> {
    multiset(Flat(cleanups, |cleanups|))
  }

  lemma KeptMore(cleanups: seq<seq<CleanupNode>>, k: nat, isNew: bool, x: CleanupNode)
    requires !isNew ==> k < |cleanups|
    ensures Kept(CleanupAdded(cleanups, k, isNew, x)) == Kept(cleanups) + multiset{x}
  {
    if isNew { FlatInFront([x], cleanups, |cleanups|); } else { FlatChanged(cleanups, k, x, |cleanups|); }
  }

  lemma KeptSame(cleanups: seq<seq<CleanupNode>>)
    ensures Kept([[]] + cleanups) == Kept(cleanups)
  {
    FlatInFront([], cleanups, |cleanups|);
    assert [] + Flat(cleanups, |cleanups|) == Flat(cleanups, |cleanups|);
  }

  // ----- runs -----

  /** One request: a range of its size at the end of one arena's data, and for a cleanup one more kept. */
  method Serve(arena: ThreadSafeArena, q: Request) returns (answer: Option<Addr>, ghost k: nat, ghost r: Range)
    requires arena.Valid() && SizeOf(q) % 8 == 0
    modifies arena, arena.memory, arena.serials
    ensures arena.Valid() && arena.served == old(arena.served) + SizeOf(q)
    ensures r.size == SizeOf(q) && answer == if q.Data? then Some(r.addr) else None
    ensures arena.userOwned == old(arena.userOwned) && arena.stored == old(arena.stored)
    ensures Grew(old(arena.memory.live), old(arena.layouts), arena.memory.live, arena.layouts, arena.userOwned,
                 PolicyOf(arena.stored))
    ensures Extends(old(arena.layouts), arena.layouts, k)
    ensures arena.layouts[k].data == DataBefore(old(arena.layouts), arena.layouts, k) + [r]
    ensures forall i :: 0 <= i < |arena.serials| ==>
            fresh(arena.serials[i])
            || exists j :: 0 <= j < |old(arena.serials)| && arena.serials[i] == old(arena.serials)[j]
    ensures Kept(arena.cleanups)
            == old(Kept(arena.cleanups)) + if q.Cleanup? then multiset{CleanupNode(q.elem, q.cleanup)} else multiset{}
  {
    hide ThreadSafeArena.Valid, Grew, Flat;
    ghost var calls, count := arena.cleanups, |arena.serials|;
    match q
    case Data(me, n) =>
      var ret;
      ret, k := arena.AllocateAligned(n, me);
      answer, r := Some(ret), Range(ret, n);
      KeptSame(calls);
    case Cleanup(me, elem, cleanup) =>
      k, r := arena.AddCleanup(elem, cleanup, me);
      answer := None;
      KeptMore(calls, k, |arena.serials| != count, CleanupNode(elem, cleanup));
  }

  /** The ranges answered: one for each request for data. */
  ghost predicate Answered(requests: seq<Request>, answers: seq<Option<Addr>>) {
    |answers| == |requests| && forall i :: 0 <= i < |requests| ==> (answers[i].Some? <==> requests[i].Data?)
  }

  ghost predicate AnswersApartAt(requests: seq<Request>, answers: seq<Option<Addr>>, i: nat, j: nat)
    requires Answered(requests, answers) && i < |requests| && j < |requests|
  {
    requests[i].Data? && requests[j].Data? ==>
      RangesApart(answers[i].value, requests[i].n, answers[j].value, requests[j].n)
  }

  /** Any requests of any threads: whoever asked, no two of the ranges handed out overlap; what was asked for is
      accounted for; and every cleanup registered is kept, once. */
  method ServeAll(arena: ThreadSafeArena, requests: seq<Request>) returns (answers: seq<Option<Addr>>)
    requires arena.Valid() && Aligned(requests)
    modifies arena, arena.memory, arena.serials
    ensures arena.Valid() && arena.served == old(arena.served) + Requested(requests)
    ensures arena.userOwned == old(arena.userOwned) && arena.stored == old(arena.stored)
    ensures Grew(old(arena.memory.live), old(arena.layouts), arena.memory.live, arena.layouts, arena.userOwned,
                 PolicyOf(arena.stored))
    ensures Answered(requests, answers)
    ensures forall i, j :: 0 <= i < j < |requests| ==> AnswersApartAt(requests, answers, i, j)
    ensures Kept(arena.cleanups) == old(Kept(arena.cleanups)) + NodesOf(requests)
    ensures forall i :: 0 <= i < |arena.serials| ==>
            fresh(arena.serials[i])
            || exists j :: 0 <= j < |old(arena.serials)| && arena.serials[i] == old(arena.serials)[j]
  {
    hide ThreadSafeArena.Valid, Extends, Kept, Requested, NodesOf, Done, Grew;
    ghost var live0, layouts0 := arena.memory.live, arena.layouts;
    NothingGrew(live0, layouts0, arena.userOwned, PolicyOf(arena.stored));
    ghost var ranges: seq<Range>, places: seq<Place> := [], [];
    answers := [];
    NothingDone(arena.layouts, requests);
    for n := 0 to |requests|
      invariant arena.Valid() && arena.served == old(arena.served) + Requested(requests[..n])
      invariant arena.userOwned == old(arena.userOwned) && arena.stored == old(arena.stored)
      invariant Grew(live0, layouts0, arena.memory.live, arena.layouts, arena.userOwned, PolicyOf(arena.stored))
      invariant Done(arena.layouts, requests[..n], answers, ranges, places)
      invariant Kept(arena.cleanups) == old(Kept(arena.cleanups)) + NodesOf(requests[..n])
      invariant forall i :: 0 <= i < |arena.serials| ==>
                fresh(arena.serials[i])
                || exists j :: 0 <= j < |old(arena.serials)| && arena.serials[i] == old(arena.serials)[j]
    {
      ghost var before, live := arena.layouts, arena.memory.live;
      var answer;
      ghost var k, r;
      answer, k, r := Serve(arena, requests[n]);
      GrewTwice(live0, layouts0, live, before, arena.memory.live, arena.layouts, arena.userOwned,
                PolicyOf(arena.stored));
      places := OneMoreDone(before, arena.layouts, k, requests, n, answers, answer, ranges, r, places);
      ranges, answers := ranges + [r], answers + [answer];
    }
    assert requests[..|requests|] == requests;
    AllApart(arena, requests, answers, ranges, places);
  }

  lemma NothingGrew(live: map<Addr, Chunk>, layouts: seq<Layout>, userOwned: bool, policy: Option<AllocationPolicy>)
    ensures Grew(live, layouts, live, layouts, userOwned, policy)
  {
  }

  lemma GrewTwice(live: map<Addr, Chunk>, layouts: seq<Layout>, live1: map<Addr, Chunk>, layouts1: seq<Layout>,
                  live2: map<Addr, Chunk>, layouts2: seq<Layout>, userOwned: bool, policy: Option<AllocationPolicy>)
    requires Grew(live, layouts, live1, layouts1, userOwned, policy)
             && Grew(live1, layouts1, live2, layouts2, userOwned, policy)
    ensures Grew(live, layouts, live2, layouts2, userOwned, policy)
  {
  }

  ghost predicate AnswerIs(q: Request, answer: Option<Addr>, r: Range) {
    r.size == SizeOf(q) && answer == if q.Data? then Some(r.addr) else None
  }

  /** The answers given so far, and where the ranges behind them are. */
  ghost predicate Done(layouts: seq<Layout>, requests: seq<Request>, answers: seq<Option<Addr>>, ranges: seq<Range>,
                       places: seq<Place>) {
    && |answers| == |ranges| == |requests| && Placed(layouts, ranges, places)
    && forall i :: 0 <= i < |requests| ==> AnswerIs(requests[i], answers[i], ranges[i])
  }

  lemma NothingDone(layouts: seq<Layout>, requests: seq<Request>)
    ensures Done(layouts, requests[..0], [], [], []) && Requested(requests[..0]) == 0
            && NodesOf(requests[..0]) == multiset{}
  {
  }

  lemma OneMoreDone(before: seq<Layout>, after: seq<Layout>, k: nat, requests: seq<Request>, n: nat,
                    answers: seq<Option<Addr>>, answer: Option<Addr>, ranges: seq<Range>, r: Range, places: seq<Place>)
    returns (places': seq<Place>)
    requires Extends(before, after, k) && after[k].data == DataBefore(before, after, k) + [r]
    requires n < |requests| && Done(before, requests[..n], answers, ranges, places) && AnswerIs(requests[n], answer, r)
    ensures Done(after, requests[..n + 1], answers + [answer], ranges + [r], places')
    ensures Requested(requests[..n + 1]) == Requested(requests[..n]) + SizeOf(requests[n])
    ensures NodesOf(requests[..n + 1]) == NodesOf(requests[..n]) +
            if requests[n].Cleanup? then multiset{CleanupNode(requests[n].elem, requests[n].cleanup)} else multiset{}
  {
    places' := PlaceMore(before, after, k, r, ranges, places);
    var q := requests[..n + 1];
    assert q[..|q| - 1] == requests[..n] && q[|q| - 1] == requests[n];
    forall i | 0 <= i < n + 1
      ensures AnswerIs(q[i], (answers + [answer])[i], (ranges + [r])[i])
    {
      if i < n { assert AnswerIs(requests[..n][i], answers[i], ranges[i]); }
    }
  }

  lemma AllApart(arena: ThreadSafeArena, requests: seq<Request>, answers: seq<Option<Addr>>, ranges: seq<Range>,
                 places: seq<Place>)
    requires arena.Valid() && Done(arena.layouts, requests, answers, ranges, places)
    ensures Answered(requests, answers)
    ensures forall i, j :: 0 <= i < j < |requests| ==> AnswersApartAt(requests, answers, i, j)
  {
    forall i | 0 <= i < |requests|
      ensures answers[i].Some? <==> requests[i].Data?
    {
      assert AnswerIs(requests[i], answers[i], ranges[i]);
    }
    forall i, j | 0 <= i < j < |requests|
      ensures AnswersApartAt(requests, answers, i, j)
    {
      assert AnswerIs(requests[i], answers[i], ranges[i]) && AnswerIs(requests[j], answers[j], ranges[j]);
      TwoApart(arena, ranges, places, i, j);
    }
  }

  lemma TwoApart(arena: ThreadSafeArena, ranges: seq<Range>, places: seq<Place>, i: nat, j: nat)
    requires arena.Valid() && Placed(arena.layouts, ranges, places) && i < j < |ranges|
    ensures RangesApart(ranges[i].addr, ranges[i].size, ranges[j].addr, ranges[j].size)
  {
    var p, q := places[i], places[j];
    assert PlacedAt(arena.layouts, ranges[i], p) && PlacedAt(arena.layouts, ranges[j], q) && DistinctAt(places, i, j);
    DataOfTwo(arena.memory, arena.serials, arena.layouts, p.arena, q.arena, p.index, q.index);
  }

  /** From construction to destruction: afterwards exactly what was live before is live, the user's own block
      included, and with block sizes in multiples of 8 the cleanups run are the registered ones, each once. */
  method Lifetime(memory: Memory, mem: Addr, size: nat, policy: Option<AllocationPolicy>, me: nat,
                  requests: seq<Request>)
    returns (ran: seq<CleanupNode>)
    requires memory.Valid() && Lent(memory.live, mem, size) && Aligned(requests)
    modifies memory
    ensures memory.Valid() && memory.live == old(memory.live)
    ensures Eightfold(policy) && (mem != 0 ==> size % 8 == 0) ==> multiset(ran) == NodesOf(requests)
  {
    hide ThreadSafeArena.Valid, Flat, EightfoldAll, CountedTo, NodesOf;
    var arena := new ThreadSafeArena(memory, mem, size, policy, me);
    NoneKept(arena.cleanups);
    var answers := ServeAll(arena, requests);
    CountedIfEightfold(arena);
    ran := arena.Destroy();
  }

  lemma CountedIfEightfold(arena: ThreadSafeArena)
    requires arena.Valid()
    ensures EightfoldAll(arena.layouts) ==> CountedTo(arena.layouts, |arena.layouts|)
  {
    if EightfoldAll(arena.layouts) {
      forall i | 0 <= i < |arena.layouts|
        ensures ShapedAt(arena.layouts, i) && EightfoldBlocks(arena.layouts[i].segments)
      {
        assert SerialAt(arena.memory, arena.serials, arena.layouts, i, arena.memory.blocks, arena.memory.live);
        assert EightfoldAt(arena.layouts, i);
      }
      EightfoldCounted(arena.layouts);
    }
  }

  lemma {:induction false} NoneKept(cleanups: seq<seq<CleanupNode>>)
    requires forall c :: c in cleanups ==> c == []
    ensures Kept(cleanups) == multiset{}
  {
    NoneFlat(cleanups, |cleanups|);
  }

  lemma {:induction false} NoneFlat(cleanups: seq<seq<CleanupNode>>, n: nat)
    requires n <= |cleanups| && forall c :: c in cleanups ==> c == []
    ensures Flat(cleanups, n) == []
  {
    if n > 0 {
      NoneFlat(cleanups, n - 1);
      assert cleanups[n - 1] in cleanups;
    }
  }
}
