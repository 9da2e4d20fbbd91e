/**
 Where 64 bits of lifecycle ids end: the last id, tagged, is the initial value of the thread caches, and
 the batch after the last one starts over.
 */
module ArenaLimits {
  import opened Common
  import opened ArenaProtocol
  import opened LifecycleIds
  import opened ArenaSafety

  // ----- ids repeat exactly when the counter passes the last batch -----

  /** The first id ever handed out is 0. */
  lemma {:induction false} FirstIdIsZero(states: seq<State>, acts: seq<Action>, n: nat)
    requires IsRun(states, acts) && n < |states| && states[n].generator > 0
    ensures |states[n].handedOut| > 0 && states[n].handedOut[0] == 0
  {
    var s, act := states[n - 1], acts[n - 1];
    assert StepAt(states, acts, n - 1);
    HandedOutGrows(s, act);
    if s.generator > 0 {
      FirstIdIsZero(states, acts, n - 1);
    } else {
      NothingYet(states, acts, n - 1);
    }
  }

  /** Before the first batch is reserved no thread has ids, and none was handed out. */
  lemma {:induction false} NothingYet(states: seq<State>, acts: seq<Action>, n: nat)
    requires IsRun(states, acts) && n < |states| && states[n].generator == 0
    ensures states[n].handedOut == []
    ensures forall t :: t in states[n].caches ==> states[n].caches[t].nextLifecycleId == 0
  {
    if n > 0 {
      var s, act := states[n - 1], acts[n - 1];
      assert StepAt(states, acts, n - 1);
      GeneratorGrows(s, act);
      NothingYet(states, acts, n - 1);
    }
  }

  lemma HandedOutGrows(s: State, act: Action)
    requires Enabled(s, act)
    ensures s.handedOut <= Apply(s, act).handedOut
  {
  }

  /** The batch after the last one starts with 0 again. */
  lemma {:induction false} PastTheLastBatch(states: seq<State>, acts: seq<Action>, n: nat)
    requires IsRun(states, acts) && n < |states| && states[n].generator > BATCHES
    ensures !NoRepeats(states[n].handedOut)
  {
    var s, act := states[n - 1], acts[n - 1];
    assert StepAt(states, acts, n - 1);
    HandedOutGrows(s, act);
    var ids, ids' := s.handedOut, states[n].handedOut;
    if s.generator > BATCHES {
      PastTheLastBatch(states, acts, n - 1);
      var i, j :| 0 <= i < j < |ids| && ids[i] == ids[j];
      assert ids'[i] == ids'[j];
    } else {
      FirstIdIsZero(states, acts, n - 1);
      assert ids' == ids + [TakenId(s, act.t)];
      assert TakenId(s, act.t) == 0;
      assert ids'[0] == ids'[|ids|];
    }
  }

  /** In every run the lifecycle ids are pairwise different if and only if the counter has not passed the last batch. */
  lemma IdsDistinctIff(states: seq<State>, acts: seq<Action>, n: nat)
    requires IsRun(states, acts) && n < |states|
    ensures NoRepeats(states[n].handedOut) <==> states[n].generator <= BATCHES
  {
    if states[n].generator <= BATCHES {
      IdsDistinct(states, acts, n);
    } else {
      PastTheLastBatch(states, acts, n);
    }
  }

  // ----- a run to the last id -----

  /** Thread 0 resets arena 0, recording allocations, over and over. */
  const AGAIN := InitArena(0, 0, true, None)

  /** After `n` of these steps. */
  function Used(n: nat): State {
    State((n + 255) / 256, map[0 := ThreadCache(2 * n % TWO_TO_64, NEVER_SEEN, None)], map[0 := Idle],
          if n == 0 then map[] else map[0 := Arena(2 * (n - 1) + 1, None, None)], map[],
          if n == 0 then map[] else map[0 := []], seq(n, i => 2 * i))
  }

  lemma UsedStep(n: nat)
    requires 2 * n < TWO_TO_64
    ensures Enabled(Used(n), AGAIN) && Apply(Used(n), AGAIN) == Used(n + 1)
  {
    var s := Used(n);
    UsedCounter(n);
    assert TakenId(s, 0) == 2 * n;
    assert SerialsOf(s, 0) == [] && WithoutArena(s, 0) == map[];
    assert seq(n, i => 2 * i) + [2 * n] == seq(n + 1, i => 2 * i);
  }

  /** A new batch is reserved with every 256th id. */
  lemma UsedCounter(n: nat)
    ensures 2 * n % BATCH == 0 <==> n % 256 == 0
    ensures n % 256 == 0 ==> (n + 255) / 256 * BATCH == 2 * n && (n + 256) / 256 == (n + 255) / 256 + 1
    ensures n % 256 != 0 ==> (n + 256) / 256 == (n + 255) / 256
  {
    var q, r := n / 256, n % 256;
    assert n == 256 * q + r;
    QuotientIs(2 * n, q, 2 * r);
  }

  /**
   The last id can be reached, with the record tag: that arena's tagged id is the sentinel, and a thread
   that never used an arena takes its own empty cache for an answer. So the exception in
   ThreadCacheAgrees is a reachable one.
   */
  lemma LastIdIsReached() returns (states: seq<State>, acts: seq<Action>, n: nat)
    ensures IsRun(states, acts) && n < |states| && states[n].generator == BATCHES
    ensures 0 in states[n].arenas && states[n].arenas[0].tagAndId == NEVER_SEEN
    ensures 0 in states[n].caches && FromThreadCache(states[n], 0, NEVER_SEEN) == Some(None)
  {
    n := TWO_TO_64 / 2;
    states, acts := seq(n + 1, (i: nat) => Used(i)), seq(n, i => AGAIN);
    forall i | 0 <= i < |acts|
      ensures StepAt(states, acts, i)
    {
      UsedStep(i);
    }
    assert states[0] == Used(0);
    assert states[n] == Used(n);
  }
}
