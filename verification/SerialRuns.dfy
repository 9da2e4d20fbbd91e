/**
 Whole runs of a serial arena: any sequence of requests, on any policy, with any addresses the
 system hands out for new blocks.
 */
module SerialRuns {
  import opened Common
  import opened SerialLayout
  import opened SerialArena

  /** A request for n bytes of data, with or without a cleanup to register. */
  datatype Request = Plain(n: nat) | WithCleanup(n: nat, node: CleanupNode)

  /** `base` is where a new block would be placed if this request needs one. */
  datatype Step = Step(request: Request, base: Addr)

  datatype State = State(layout: Layout, nodes: map<int, CleanupNode>)

  function Needed(q: Request): nat {
    if q.Plain? then q.n else q.n + CLEANUP
  }

  /** What the request does once the newest block has room for it. */
  function Serve(s: State, q: Request): (s': State)
    requires s.layout.segments != []
    ensures s'.layout.segments != []
  {
    match q
    case Plain(n) => State(Bump(s.layout, n), s.nodes)
    case WithCleanup(n, node) =>
      State(BumpWithCleanup(s.layout, n), s.nodes[Start(s.layout.segments[0]) - CLEANUP := node])
  }

  function Prepare(s: State, step: Step, policy: Option<AllocationPolicy>): (s': State)
    requires s.layout.segments != []
    ensures s'.layout.segments != []
  {
    State(Roomy(s.layout, step.base, policy, Needed(step.request)), s.nodes)
  }

  function Perform(s: State, step: Step, policy: Option<AllocationPolicy>): (s': State)
    requires s.layout.segments != []
    ensures s'.layout.segments != []
  {
    Serve(Prepare(s, step, policy), step.request)
  }

  /** Requests are multiples of 8, and new blocks are aligned and overlap no block of the arena. */
  ghost predicate Allowed(s: State, step: Step, policy: Option<AllocationPolicy>)
    requires s.layout.segments != []
  {
    var l := s.layout;
    && step.request.n % 8 == 0 && 0 < step.base && step.base % 8 == 0
    && forall i :: 0 <= i < |l.segments| ==>
         RangesApart(step.base, MemorySize(policy, l.segments[0].size, Needed(step.request)), l.segments[i].base,
                     l.segments[i].size)
  }

  ghost predicate IsRun(s: State, steps: seq<Step>, policy: Option<AllocationPolicy>)
    requires s.layout.segments != []
    decreases |steps|
  {
    steps == [] || (Allowed(s, steps[0], policy) && IsRun(Perform(s, steps[0], policy), steps[1..], policy))
  }

  function After(s: State, steps: seq<Step>, policy: Option<AllocationPolicy>): (s': State)
    requires s.layout.segments != []
    ensures s'.layout.segments != []
    decreases |steps|
  {
    if steps == [] then s else After(Perform(s, steps[0], policy), steps[1..], policy)
  }

  /** The cleanups asked for, most recent first. */
  function Registered(steps: seq<Step>): seq<CleanupNode> {
    if steps == [] then [] else
    Registered(steps[1..]) + (if steps[0].request.WithCleanup? then [steps[0].request.node] else [])
  }

  function Requested(steps: seq<Step>): nat {
    if steps == [] then 0 else steps[0].request.n + Requested(steps[1..])
  }

  /** What every state of a run keeps: the geometry, and the cleanups `done` and bytes `used` so far. */
  ghost predicate Exact(s: State, done: seq<CleanupNode>, used: nat) {
    ExactData(s.layout, used) && ExactNodes(s.nodes, AllSlots(s.layout.segments), done)
  }

  ghost predicate ExactData(l: Layout, used: nat) {
    LayoutOk(l) && Accounted(l) && DataSize(l.data) == used
  }

  ghost predicate ExactNodes(nodes: map<int, CleanupNode>, slots: seq<int>, done: seq<CleanupNode>) {
    AllIn(nodes, slots) && NodesAt(nodes, slots) == done
  }

  lemma PrepareExact(s: State, step: Step, policy: Option<AllocationPolicy>, done: seq<CleanupNode>, used: nat)
    requires Exact(s, done, used) && Allowed(s, step, policy)
    ensures Exact(Prepare(s, step, policy), done, used)
    ensures Needed(step.request) <= Room(Prepare(s, step, policy).layout)
  {
    var l, n := s.layout, Needed(step.request);
    var size := MemorySize(policy, l.segments[0].size, n);
    if n > Room(l) {
      GrowOk(l, step.base, size);
      StepAccounted(l, 0, step.base, size);
      SlotsAfterOther(l, 0, step.base, size);
    }
  }

  lemma PlainExact(s: State, n: nat, done: seq<CleanupNode>, used: nat)
    requires Exact(s, done, used) && n % 8 == 0 && n <= Room(s.layout)
    ensures Exact(State(Bump(s.layout, n), s.nodes), done, used + n)
  {
    BumpOk(s.layout, n);
    StepAccounted(s.layout, n, 0, 0);
    DataGrows(s.layout.data, Range(s.layout.segments[0].dataEnd, n));
    SlotsAfterOther(s.layout, n, 0, 0);
  }

  lemma {:induction false} NodesAtFrame(nodes: map<int, CleanupNode>, xs: seq<int>, x: int, node: CleanupNode)
    requires AllIn(nodes, xs) && x !in xs
    ensures AllIn(nodes[x := node], xs) && NodesAt(nodes[x := node], xs) == NodesAt(nodes, xs)
  {
    if xs != [] { NodesAtFrame(nodes, xs[1..], x, node); }
  }

  lemma NodesAtPush(nodes: map<int, CleanupNode>, xs: seq<int>, x: int, node: CleanupNode, done: seq<CleanupNode>)
    requires ExactNodes(nodes, xs, done) && x !in xs
    ensures ExactNodes(nodes[x := node], [x] + xs, [node] + done)
  {
    NodesAtFrame(nodes, xs, x, node);
    assert ([x] + xs)[1..] == xs;
  }

  lemma CleanupData(l: Layout, n: nat, used: nat)
    requires ExactData(l, used) && n % 8 == 0 && n + CLEANUP <= Room(l)
    ensures ExactData(BumpWithCleanup(l, n), used + n)
  {
    BumpWithCleanupOk(l, n);
    StepAccounted(l, n, 0, 0);
    DataGrows(l.data, Range(l.segments[0].dataEnd, n));
  }

  lemma CleanupExact(s: State, n: nat, node: CleanupNode, done: seq<CleanupNode>, used: nat)
    requires Exact(s, done, used) && n % 8 == 0 && n + CLEANUP <= Room(s.layout)
    ensures Exact(State(BumpWithCleanup(s.layout, n), s.nodes[Start(s.layout.segments[0]) - CLEANUP := node]),
                  [node] + done, used + n)
  {
    CleanupData(s.layout, n, used);
    SlotsAfterCleanup(s.layout, n);
    NewNodeIsNew(s.layout);
    NodesAtPush(s.nodes, AllSlots(s.layout.segments), Start(s.layout.segments[0]) - CLEANUP, node, done);
  }

  function Pushed(q: Request, done: seq<CleanupNode>): seq<CleanupNode> {
    if q.WithCleanup? then [q.node] + done else done
  }

  lemma ServeExact(s: State, q: Request, done: seq<CleanupNode>, used: nat)
    requires Exact(s, done, used) && q.n % 8 == 0 && Needed(q) <= Room(s.layout)
    ensures Exact(Serve(s, q), Pushed(q, done), used + q.n)
  {
    if q.Plain? {
      PlainExact(s, q.n, done, used);
    } else {
      CleanupExact(s, q.n, q.node, done, used);
    }
  }

  lemma PerformExact(s: State, step: Step, policy: Option<AllocationPolicy>, done: seq<CleanupNode>, used: nat)
    requires Exact(s, done, used) && Allowed(s, step, policy)
    ensures Exact(Perform(s, step, policy), Pushed(step.request, done), used + step.request.n)
  {
    PrepareExact(s, step, policy, done, used);
    ServeExact(Prepare(s, step, policy), step.request, done, used);
  }

  lemma RegisteredStep(steps: seq<Step>, done: seq<CleanupNode>)
    requires steps != []
    ensures Registered(steps) + done == Registered(steps[1..]) + Pushed(steps[0].request, done)
  {
    Associate(Registered(steps[1..]), if steps[0].request.WithCleanup? then [steps[0].request.node] else [], done);
    PushedIs(steps[0].request, done);
  }

  lemma PushedIs(q: Request, done: seq<CleanupNode>)
    ensures Pushed(q, done) == (if q.WithCleanup? then [q.node] else []) + done
  {
  }

  lemma {:induction false} RunExact(s: State, steps: seq<Step>, policy: Option<AllocationPolicy>,
                                    done: seq<CleanupNode>, used: nat)
    requires Exact(s, done, used) && IsRun(s, steps, policy)
    ensures Exact(After(s, steps, policy), Registered(steps) + done, used + Requested(steps))
    decreases |steps|
  {
    if steps == [] {
      assert Registered(steps) + done == done;
    } else {
      PerformExact(s, steps[0], policy, done, used);
      RunExact(Perform(s, steps[0], policy), steps[1..], policy, Pushed(steps[0].request, done),
               used + steps[0].request.n);
      RegisteredStep(steps, done);
    }
  }

  /** A new serial arena in a block of its own. */
  function Fresh(base: Addr, size: nat): State
    requires HEADER + SERIAL <= size
  {
    State(First(base, size), map[])
  }

  lemma {:induction false} AfterPrefix(s: State, steps: seq<Step>, policy: Option<AllocationPolicy>, i: nat)
    requires s.layout.segments != [] && i < |steps|
    ensures After(s, steps[..i + 1], policy) == Perform(After(s, steps[..i], policy), steps[i], policy)
    decreases i
  {
    var first, rest := steps[..i + 1], steps[1..];
    assert first[0] == steps[0];
    if i == 0 {
      assert first[1..] == [] && steps[..0] == [];
    } else {
      assert first[1..] == rest[..i] && steps[..i][1..] == rest[..i - 1] && steps[..i][0] == steps[0];
      AfterPrefix(Perform(s, steps[0], policy), rest, policy, i - 1);
    }
  }

  /** In every run a request opens a block, exactly one and of the policy's size, if and only if data and nodes of the
      newest block are not far enough apart for it: all older blocks were full for the request that followed. */
  lemma NewBlockIffFull(s: State, steps: seq<Step>, policy: Option<AllocationPolicy>, i: nat)
    requires s.layout.segments != [] && i < |steps|
    ensures var l, l' := After(s, steps[..i], policy).layout, After(s, steps[..i + 1], policy).layout;
            var need, newest := Needed(steps[i].request), l.segments[0];
            if need <= Start(newest) - newest.dataEnd then SameBlocks(l'.segments, l.segments)
            else |l'.segments| == |l.segments| + 1 && l'.segments[0].base == steps[i].base
                 && l'.segments[0].size == MemorySize(policy, newest.size, need)
                 && SameBlocks(l'.segments[1..], l.segments)
  {
    AfterPrefix(s, steps, policy, i);
    var before := After(s, steps[..i], policy);
    PerformBlocks(before, steps[i], policy);
  }

  lemma PerformBlocks(s: State, step: Step, policy: Option<AllocationPolicy>)
    requires s.layout.segments != []
    ensures var segments := Roomy(s.layout, step.base, policy, Needed(step.request)).segments;
            SameBlocks(Perform(s, step, policy).layout.segments, segments)
            && SameBlocks(Perform(s, step, policy).layout.segments[1..], segments[1..])
  {
  }

  lemma FreshExact(base: Addr, size: nat)
    requires 0 < base && base % 8 == 0 && HEADER + SERIAL <= size
    ensures Exact(Fresh(base, size), [], SERIAL)
  {
    FirstOk(base, size);
    var l := First(base, size);
    assert l.segments[1..] == [] && l.data[..0] == [];
    assert Filled(l.segments) == SERIAL;
    assert DataSize(l.data) == SERIAL;
  }

  /** In every run the data handed out adds up to the requests, cleanup nodes excluded: what
      SpaceUsed reports, the object itself aside, across any number of blocks. */
  lemma SpaceUsedIsRequested(base: Addr, size: nat, steps: seq<Step>, policy: Option<AllocationPolicy>)
    requires 0 < base && base % 8 == 0 && HEADER + SERIAL <= size && IsRun(Fresh(base, size), steps, policy)
    ensures var l := After(Fresh(base, size), steps, policy).layout;
            LayoutOk(l) && Filled(l.segments) - SERIAL == Requested(steps)
  {
    FreshExact(base, size);
    RunExact(Fresh(base, size), steps, policy, [], SERIAL);
  }

  lemma {:induction false} VisitedAmongSlots(nodes: map<int, CleanupNode>, segments: seq<Segment>)
    requires SegmentsOk(segments) && AllIn(nodes, AllSlots(segments))
    ensures AllIn(nodes, AllVisited(segments))
  {
    if segments != [] {
      var xs, ys := Slots(segments[0].top, segments[0].nodes), AllSlots(segments[1..]);
      assert forall k :: 0 <= k < |xs| ==> (xs + ys)[k] == xs[k];
      assert forall k :: 0 <= k < |ys| ==> (xs + ys)[|xs| + k] == ys[k];
      TailOk(segments);
      VisitedExact(segments[0]);
      VisitedAmongSlots(nodes, segments[1..]);
    }
  }

  lemma {:induction false} NodesAtLength(nodes: map<int, CleanupNode>, xs: seq<int>)
    requires AllIn(nodes, xs)
    ensures |NodesAt(nodes, xs)| == |xs|
  {
    if xs != [] { NodesAtLength(nodes, xs[1..]); }
  }

  /** After any run CleanupList finds a node wherever it looks, and the cleanups it runs are exactly the registered
      ones, each once and the latest first, if and only if every block ends on a multiple of 8 or holds
      a number of nodes other than one. */
  lemma CleanupsRunInReverseIff(base: Addr, size: nat, steps: seq<Step>, policy: Option<AllocationPolicy>)
    requires 0 < base && base % 8 == 0 && HEADER + SERIAL <= size && IsRun(Fresh(base, size), steps, policy)
    ensures var s := After(Fresh(base, size), steps, policy);
            && AllIn(s.nodes, AllVisited(s.layout.segments))
            && (NodesAt(s.nodes, AllVisited(s.layout.segments)) == Registered(steps)
                <==> forall i :: 0 <= i < |s.layout.segments| ==> CountsNodes(s.layout.segments[i]))
  {
    FreshExact(base, size);
    RunExact(Fresh(base, size), steps, policy, [], SERIAL);
    var s := After(Fresh(base, size), steps, policy);
    assert Registered(steps) + [] == Registered(steps);
    VisitedAmongSlots(s.nodes, s.layout.segments);
    VisitedShorter(s.layout.segments);
    NodesAtLength(s.nodes, AllVisited(s.layout.segments));
    NodesAtLength(s.nodes, AllSlots(s.layout.segments));
  }

  predicate Eightfold(policy: Option<AllocationPolicy>) {
    policy.None? || (policy.value.startBlockSize % 8 == 0 && policy.value.maxBlockSize % 8 == 0)
  }

  ghost predicate EightfoldBlocks(segments: seq<Segment>) {
    forall i :: 0 <= i < |segments| ==> segments[i].size % 8 == 0
  }

  lemma MemorySizeEightfold(policy: Option<AllocationPolicy>, lastSize: nat, n: nat)
    requires Eightfold(policy) && lastSize % 8 == 0 && n % 8 == 0
    ensures MemorySize(policy, lastSize, n) % 8 == 0
  {
    SumOfEights(HEADER, n);
    SumOfEights(lastSize, lastSize);
  }

  lemma {:induction false} RunEightfold(s: State, steps: seq<Step>, policy: Option<AllocationPolicy>)
    requires s.layout.segments != [] && IsRun(s, steps, policy)
    requires Eightfold(policy) && EightfoldBlocks(s.layout.segments)
    ensures EightfoldBlocks(After(s, steps, policy).layout.segments)
    decreases |steps|
  {
    if steps != [] {
      var n := Needed(steps[0].request);
      MemorySizeEightfold(policy, s.layout.segments[0].size, n);
      RunEightfold(Perform(s, steps[0], policy), steps[1..], policy);
    }
  }

  /** With a first block and a policy in multiples of 8, every registered cleanup runs exactly once, latest first. */
  lemma CleanupsRunInReverse(base: Addr, size: nat, steps: seq<Step>, policy: Option<AllocationPolicy>)
    requires 0 < base && base % 8 == 0 && HEADER + SERIAL <= size && IsRun(Fresh(base, size), steps, policy)
    requires size % 8 == 0 && Eightfold(policy)
    ensures var s := After(Fresh(base, size), steps, policy);
            AllIn(s.nodes, AllVisited(s.layout.segments))
            && NodesAt(s.nodes, AllVisited(s.layout.segments)) == Registered(steps)
  {
    CleanupsRunInReverseIff(base, size, steps, policy);
    RunEightfold(Fresh(base, size), steps, policy);
    FreshExact(base, size);
    RunExact(Fresh(base, size), steps, policy, [], SERIAL);
    var s := After(Fresh(base, size), steps, policy);
    EightfoldSizesCount(s.layout);
    VisitedShorter(s.layout.segments);
  }
}
