/**
 The two-tier symbol index of EncodedDescriptorDatabase, as values: new symbols go to an ordered
 set, and a sorted flat vector absorbs the set before every lookup. Rows stand for entries; the
 index object in EncodedDatabase is proved to behave like these functions.
 */
module TwoTiers {
  import opened Common
  import opened SymbolNames
  import opened SymbolTable

  datatype Tiers<+V> = Tiers(recent: seq<Row<V>>, flat: seq<Row<V>>)

  /** std::merge: the elements of the first range go before equivalent elements of the second. */
  function Merge<T>(a: seq<T>, b: seq<T>, before: (T, T) -> bool): (r: seq<T>)
    ensures multiset(r) == multiset(a) + multiset(b)
  {
    if a == [] then b
    else if b == [] then a
    else if before(b[0], a[0]) then
      assert b == [b[0]] + b[1..];
      [b[0]] + Merge(a, b[1..], before)
    else
      assert a == [a[0]] + a[1..];
      [a[0]] + Merge(a[1..], b, before)
  }

  function RowBefore<V>(): (Row<V>, Row<V>) -> bool {
    (x: Row<V>, y: Row<V>) => Less(x.name, y.name)
  }

  function Flatten<V>(t: Tiers<V>): Tiers<V> {
    Tiers([], Merge(t.recent, t.flat, RowBefore()))
  }

  /** Both tiers get the neighbour check. */
  predicate TiersAccept<V>(t: Tiers<V>, name: string) {
    Accepts(t.recent, name) && Accepts(t.flat, name)
  }

  function TiersAdd<V>(t: Tiers<V>, name: string, value: V): Tiers<V> {
    if TiersAccept(t, name) then t.(recent := Insert(t.recent, Row(name, value))) else t
  }

  function TiersFind<V>(t: Tiers<V>, query: string): Option<V> {
    FindSymbol(Flatten(t).flat, query)
  }

  /** Neither tier is in the blind spot of the neighbour check. */
  predicate TiersClear<V>(t: Tiers<V>, name: string) {
    !Overlooks(t.recent, name) && !Overlooks(t.flat, name)
  }

  // ----- merging keeps the rows and the order -----

  lemma SortedCons<V>(r: Row<V>, rest: seq<Row<V>>)
    requires Sorted(rest)
    requires forall x :: x in rest ==> Less(r.name, x.name)
    ensures Sorted([r] + rest)
  {
  }

  lemma {:induction false} MergeSorted<V>(a: seq<Row<V>>, b: seq<Row<V>>)
    requires Sorted(a) && Sorted(b)
    requires forall x, y :: x in a && y in b ==> x.name != y.name
    ensures Sorted(Merge(a, b, RowBefore()))
  {
    if a != [] && b != [] {
      LessTotal(a[0].name, b[0].name);
      if Less(b[0].name, a[0].name) {
        MergeSorted(a, b[1..]);
        MergeTail(a, b[1..], b[0]);
      } else {
        MergeSorted(a[1..], b);
        MergeTail(a[1..], b, a[0]);
      }
    }
  }

  /** Putting a smaller row before a merge keeps it sorted. */
  lemma MergeTail<V>(a: seq<Row<V>>, b: seq<Row<V>>, r: Row<V>)
    requires Sorted(a) && Sorted(b) && Sorted(Merge(a, b, RowBefore()))
    requires a != [] ==> Less(r.name, a[0].name)
    requires b != [] ==> Less(r.name, b[0].name)
    ensures Sorted([r] + Merge(a, b, RowBefore()))
  {
    var m := Merge(a, b, RowBefore());
    forall x | x in m
      ensures Less(r.name, x.name)
    {
      assert x in multiset(m);
      assert x in a || x in b;
      if x in a { LaterRow(a, x, r.name); } else { LaterRow(b, x, r.name); }
    }
    SortedCons(r, m);
  }

  lemma LaterRow<V>(t: seq<Row<V>>, r: Row<V>, least: string)
    requires Sorted(t) && r in t && (Less(least, t[0].name) || least == t[0].name)
    ensures Less(least, r.name) || r == t[0]
  {
    var k :| 0 <= k < |t| && t[k] == r;
    if k > 0 && Less(least, t[0].name) { LessTrans(least, t[0].name, r.name); }
  }

  /** Two sorted tables with the same rows are the same table. */
  lemma {:induction false} SortedUnique<V(!new)>(a: seq<Row<V>>, b: seq<Row<V>>)
    requires Sorted(a) && Sorted(b)
    requires forall r :: r in a <==> r in b
    ensures a == b
  {
    assert |b| > 0 ==> b[0] in b;
    if a != [] {
      assert a[0] in a;
      LaterRow(b, a[0], b[0].name);
      LaterRow(a, b[0], a[0].name);
      if a[0] != b[0] { LessAsymmetric(a[0].name, b[0].name); }
      LessIrreflexive(a[0].name);
      forall r | r in a[1..]
        ensures r in b[1..]
      {
        LaterRow(a, r, a[0].name);
        assert r in b;
        assert exists k :: 1 <= k < |a| && a[k] == r;
        assert r != a[0];
        assert b == [b[0]] + b[1..];
      }
      forall r | r in b[1..]
        ensures r in a[1..]
      {
        assert exists k :: 1 <= k < |b| && b[k] == r;
        assert r in a && r != b[0];
        assert a == [a[0]] + a[1..];
      }
      SortedUnique(a[1..], b[1..]);
    }
  }

  // ----- the two tiers hold together what one map would hold -----

  /** `t` splits the rows of the single map `whole` over its tiers. */
  ghost predicate Splits<V(!new)>(t: Tiers<V>, whole: seq<Row<V>>) {
    && Sorted(whole) && Sorted(t.recent) && Sorted(t.flat)
    && (forall r :: r in whole <==> r in t.recent || r in t.flat)
    && (forall x, y :: x in t.recent && y in t.flat ==> x.name != y.name)
  }

  /** And the single map has the documented invariant. */
  ghost predicate Represents<V(!new)>(t: Tiers<V>, whole: seq<Row<V>>) {
    WellFormed(whole) && Splits(t, whole)
  }

  lemma RowAt<V>(t: seq<Row<V>>, r: Row<V>) returns (k: nat)
    requires r in t
    ensures k < |t| && t[k] == r
  {
    k :| 0 <= k < |t| && t[k] == r;
  }

  /** A sorted part of a well-formed map is well formed. */
  lemma PartWellFormed<V(!new)>(part: seq<Row<V>>, whole: seq<Row<V>>)
    requires WellFormed(whole) && Sorted(part)
    requires forall r :: r in part ==> r in whole
    ensures WellFormed(part)
  {
    forall i | 0 <= i < |part|
      ensures Valid(part[i].name)
    {
      var k := RowAt(whole, part[i]);
    }
    forall i, j | 0 <= i < |part| && 0 <= j < |part| && i != j
      ensures !IsSubSymbol(part[i].name, part[j].name)
    {
      var k := RowAt(whole, part[i]);
      var l := RowAt(whole, part[j]);
      if k == l {
        if i < j { LessAsymmetric(part[i].name, part[j].name); } else { LessAsymmetric(part[j].name, part[i].name); }
      }
    }
  }

  lemma RepresentsParts<V(!new)>(t: Tiers<V>, whole: seq<Row<V>>)
    requires Represents(t, whole)
    ensures WellFormed(t.recent) && WellFormed(t.flat)
  {
    PartWellFormed(t.recent, whole);
    PartWellFormed(t.flat, whole);
  }

  lemma ConflictsSplit<V(!new)>(t: Tiers<V>, whole: seq<Row<V>>, name: string)
    requires Represents(t, whole)
    ensures Conflicts(whole, name) <==> Conflicts(t.recent, name) || Conflicts(t.flat, name)
  {
    if Conflicts(whole, name) {
      var i :| 0 <= i < |whole| && Related(whole[i].name, name);
      assert whole[i] in whole;
      if whole[i] in t.recent { var k := RowAt(t.recent, whole[i]); } else { var k := RowAt(t.flat, whole[i]); }
    }
    if Conflicts(t.recent, name) {
      var i :| 0 <= i < |t.recent| && Related(t.recent[i].name, name);
      assert t.recent[i] in t.recent;
      var k := RowAt(whole, t.recent[i]);
    }
    if Conflicts(t.flat, name) {
      var i :| 0 <= i < |t.flat| && Related(t.flat[i].name, name);
      assert t.flat[i] in t.flat;
      var k := RowAt(whole, t.flat[i]);
    }
  }

  /** If the single map is in the blind spot, the tier holding its first key is too. */
  lemma OverlooksInPart<V(!new)>(part: seq<Row<V>>, whole: seq<Row<V>>, name: string)
    requires WellFormed(whole) && Sorted(part) && (forall r :: r in part ==> r in whole)
    requires Overlooks(whole, name) && whole[0] in part
    ensures Overlooks(part, name)
  {
    assert part[0] in part;
    LaterRow(whole, part[0], whole[0].name);
    LaterRow(part, whole[0], part[0].name);
    if part[0] != whole[0] { LessAsymmetric(part[0].name, whole[0].name); }
    if |part| > 1 && IsSubSymbol(name, part[1].name) {
      assert part[1] in part;
      var k := RowAt(whole, part[1]);
      LessIrreflexive(part[0].name);
      LessAsymmetric(name, whole[0].name);
      assert k >= 1;
      LessTrans(name, whole[0].name, whole[1].name);
      LessAsymmetric(name, whole[1].name);
      if k > 1 { LessAsymmetric(whole[1].name, whole[k].name); }
      Between(name, whole[1].name, whole[k].name);
      assert false;
    }
  }

  lemma ClearTiersClearWhole<V(!new)>(t: Tiers<V>, whole: seq<Row<V>>, name: string)
    requires Represents(t, whole) && TiersClear(t, name)
    ensures !Overlooks(whole, name)
  {
    if Overlooks(whole, name) {
      assert whole[0] in whole;
      if whole[0] in t.recent { OverlooksInPart(t.recent, whole, name); } else { OverlooksInPart(t.flat, whole, name); }
    }
  }

  lemma AcceptSimulates<V(!new)>(t: Tiers<V>, whole: seq<Row<V>>, name: string)
    requires Represents(t, whole)
    requires Valid(name) ==> TiersClear(t, name)
    ensures TiersAccept(t, name) <==> Accepts(whole, name)
  {
    if Valid(name) {
      RepresentsParts(t, whole);
      ClearTiersClearWhole(t, whole, name);
      ConflictsSplit(t, whole, name);
      NeighbourCheckExact(whole, name);
      NeighbourCheckExact(t.recent, name);
      NeighbourCheckExact(t.flat, name);
    }
  }

  /** When the single map is in the blind spot, its first key is the only one related to the name. */
  lemma OnlyFirstRelated<V>(whole: seq<Row<V>>, name: string, k: nat)
    requires WellFormed(whole) && Overlooks(whole, name) && 0 < k < |whole|
    ensures !Related(whole[k].name, name)
  {
    LessTrans(name, whole[0].name, whole[k].name);
    LessAsymmetric(name, whole[k].name);
    if IsSubSymbol(whole[k].name, name) {
      SubSymbolNotGreater(whole[k].name, name);
      assert false;
    }
    if IsSubSymbol(name, whole[k].name) {
      LessTrans(name, whole[0].name, whole[1].name);
      LessAsymmetric(name, whole[1].name);
      if k > 1 { LessAsymmetric(whole[1].name, whole[k].name); }
      Between(name, whole[1].name, whole[k].name);
      assert false;
    }
  }

  lemma PartWithoutFirst<V(!new)>(part: seq<Row<V>>, whole: seq<Row<V>>, name: string)
    requires WellFormed(whole) && Overlooks(whole, name) && whole[0] !in part
    requires forall r :: r in part ==> r in whole
    ensures !Conflicts(part, name)
  {
    forall i | 0 <= i < |part|
      ensures !Related(part[i].name, name)
    {
      assert part[i] in part;
      var k := RowAt(whole, part[i]);
      OnlyFirstRelated(whole, name, k);
    }
  }

  lemma OverlookingPartAccepts<V(!new)>(part: seq<Row<V>>, whole: seq<Row<V>>, name: string)
    requires WellFormed(whole) && Sorted(part) && (forall r :: r in part ==> r in whole)
    requires Valid(name) && Overlooks(whole, name)
    ensures Accepts(part, name)
  {
    if whole[0] in part {
      OverlooksInPart(part, whole, name);
      OverlookedIsAccepted(part, name);
    } else {
      PartWithoutFirst(part, whole, name);
      NoConflictIsAccepted(part, name);
    }
  }

  /** The tiers never refuse what the single map accepts, blind spot or not. */
  lemma WholeAcceptsTiersAccept<V(!new)>(t: Tiers<V>, whole: seq<Row<V>>, name: string)
    requires Represents(t, whole) && Accepts(whole, name)
    ensures TiersAccept(t, name)
  {
    if Overlooks(whole, name) {
      OverlookingPartAccepts(t.recent, whole, name);
      OverlookingPartAccepts(t.flat, whole, name);
    } else {
      NeighbourCheckExact(whole, name);
      ConflictsSplit(t, whole, name);
      NoConflictIsAccepted(t.recent, name);
      NoConflictIsAccepted(t.flat, name);
    }
  }

  /** A name accepted by a tier in its blind spot breaks the single map, if that accepts it at all. */
  lemma UnclearTiersBreak<V(!new)>(t: Tiers<V>, whole: seq<Row<V>>, name: string, value: V)
    requires Represents(t, whole) && !TiersClear(t, name) && Accepts(whole, name)
    ensures !PrefixFree(AddSymbol(whole, name, value))
  {
    if Overlooks(t.recent, name) { OverlookedIsAccepted(t.recent, name); } else { OverlookedIsAccepted(t.flat, name); }
    ConflictsSplit(t, whole, name);
    NeighbourCheckExact(whole, name);
    AddKeepsPrefixFree(whole, name, value);
  }

  lemma ClearAddSimulates<V(!new)>(t: Tiers<V>, whole: seq<Row<V>>, name: string, value: V)
    requires Represents(t, whole) && TiersAccept(t, name) && TiersClear(t, name)
    ensures Accepts(whole, name)
    ensures Represents(TiersAdd(t, name, value), AddSymbol(whole, name, value))
  {
    AcceptSimulates(t, whole, name);
    RepresentsParts(t, whole);
    ClearTiersClearWhole(t, whole, name);
    AddKeepsSorted(whole, name, value);
    AddKeepsPrefixFree(whole, name, value);
    AddKeepsSorted(t.recent, name, value);
    AcceptedIsNew(t.flat, name);
    InsertKeepsSplit(t, whole, Row(name, value));
  }

  /** An accepted name outside the blind spot of both tiers, or a refused one. */
  predicate AddClear<V>(t: Tiers<V>, name: string) {
    TiersAccept(t, name) ==> TiersClear(t, name)
  }

  /** Adding gives the same answer as adding to the single map, and leaves its rows split over the tiers. */
  ghost predicate AddAgrees<V(!new)>(t: Tiers<V>, whole: seq<Row<V>>, name: string, value: V) {
    && (TiersAccept(t, name) <==> Accepts(whole, name))
    && Represents(TiersAdd(t, name, value), AddSymbol(whole, name, value))
  }

  /** The tiers and the single map stay together if and only if the tiers do not accept the name in a blind spot. */
  lemma AddSimulatesIff<V(!new)>(t: Tiers<V>, whole: seq<Row<V>>, name: string, value: V)
    requires Represents(t, whole)
    ensures AddAgrees(t, whole, name, value) <==> AddClear(t, name)
  {
    if !TiersAccept(t, name) {
      if Accepts(whole, name) { WholeAcceptsTiersAccept(t, whole, name); }
    } else if TiersClear(t, name) {
      ClearAddSimulates(t, whole, name, value);
    } else if Accepts(whole, name) {
      UnclearTiersBreak(t, whole, name, value);
    }
  }

  /** Same answer and same rows, whether or not the single map keeps the documented invariant. */
  ghost predicate AddSameRows<V(!new)>(t: Tiers<V>, whole: seq<Row<V>>, name: string, value: V) {
    && (TiersAccept(t, name) <==> Accepts(whole, name))
    && Splits(TiersAdd(t, name, value), AddSymbol(whole, name, value))
  }

  lemma BothOverlook<V(!new)>(t: Tiers<V>, whole: seq<Row<V>>, name: string, value: V)
    requires Represents(t, whole) && TiersAccept(t, name) && Overlooks(whole, name)
    ensures AddSameRows(t, whole, name, value)
  {
    OverlookedIsAccepted(whole, name);
    RepresentsParts(t, whole);
    AddKeepsSorted(whole, name, value);
    AddKeepsSorted(t.recent, name, value);
    AcceptedIsNew(t.flat, name);
    InsertKeepsSplit(t, whole, Row(name, value));
  }

  /** From a map with the invariant: answer and rows are the same if and only if the tiers do not accept the name in a
      blind spot, or the single map, which is what the tiers flatten to, is in the blind spot as well. */
  lemma AddSameRowsIff<V(!new)>(t: Tiers<V>, whole: seq<Row<V>>, name: string, value: V)
    requires Represents(t, whole)
    ensures AddSameRows(t, whole, name, value) <==> AddClear(t, name) || Overlooks(Flatten(t).flat, name)
  {
    FlattenSimulates(t, whole);
    AddSimulatesIff(t, whole, name, value);
    if !AddClear(t, name) {
      if Overlooks(whole, name) {
        BothOverlook(t, whole, name, value);
      } else {
        if Overlooks(t.recent, name) {
          OverlookedIsAccepted(t.recent, name);
        } else {
          OverlookedIsAccepted(t.flat, name);
        }
        ConflictsSplit(t, whole, name);
        NeighbourCheckExact(whole, name);
      }
    }
  }

  lemma InsertKeepsSplit<V(!new)>(t: Tiers<V>, whole: seq<Row<V>>, r: Row<V>)
    requires Splits(t, whole)
    requires forall i :: 0 <= i < |t.flat| ==> t.flat[i].name != r.name
    requires Sorted(Insert(t.recent, r)) && Sorted(Insert(whole, r))
    ensures Splits(t.(recent := Insert(t.recent, r)), Insert(whole, r))
  {
    InsertContents(whole, r);
    InsertContents(t.recent, r);
  }

  /** Flattening rebuilds exactly the single map in the flat tier. */
  lemma FlattenSimulates<V(!new)>(t: Tiers<V>, whole: seq<Row<V>>)
    requires Represents(t, whole)
    ensures Flatten(t).flat == whole
    ensures Represents(Flatten(t), whole)
  {
    var m := Merge(t.recent, t.flat, RowBefore());
    MergeSorted(t.recent, t.flat);
    forall r
      ensures r in m <==> r in whole
    {
      assert r in m <==> r in multiset(m);
    }
    SortedUnique(m, whole);
  }

  // ----- whole runs -----

  datatype Op<+V> = Add(name: string, value: V) | EnsureFlat | Find(query: string)

  datatype Answer<+V> = Added(ok: bool) | Silent | Found(value: Option<V>)

  function TiersAnswer<V>(t: Tiers<V>, op: Op<V>): Answer<V> {
    match op
    case Add(name, _) => Added(TiersAccept(t, name))
    case EnsureFlat => Silent
    case Find(query) => Found(TiersFind(t, query))
  }

  function TiersStep<V>(t: Tiers<V>, op: Op<V>): Tiers<V> {
    match op
    case Add(name, value) => TiersAdd(t, name, value)
    case EnsureFlat => Flatten(t)
    case Find(_) => Flatten(t)
  }

  function TiersRun<V>(t: Tiers<V>, ops: seq<Op<V>>): seq<Answer<V>>
    decreases |ops|
  {
    if ops == [] then [] else [TiersAnswer(t, ops[0])] + TiersRun(TiersStep(t, ops[0]), ops[1..])
  }

  function MapAnswer<V>(whole: seq<Row<V>>, op: Op<V>): Answer<V> {
    match op
    case Add(name, _) => Added(Accepts(whole, name))
    case EnsureFlat => Silent
    case Find(query) => Found(FindSymbol(whole, query))
  }

  /** The same run on one sorted map that knows nothing of tiers. */
  function MapRun<V>(whole: seq<Row<V>>, ops: seq<Op<V>>): seq<Answer<V>>
    decreases |ops|
  {
    if ops == [] then [] else [MapAnswer(whole, ops[0])] + MapRun(MapStep(whole, ops[0]), ops[1..])
  }

  function MapStep<V>(whole: seq<Row<V>>, op: Op<V>): seq<Row<V>> {
    if op.Add? then AddSymbol(whole, op.name, op.value) else whole
  }

  predicate RunClear<V>(t: Tiers<V>, ops: seq<Op<V>>)
    decreases |ops|
  {
    ops == [] || ((ops[0].Add? ==> AddClear(t, ops[0].name)) && RunClear(TiersStep(t, ops[0]), ops[1..]))
  }

  /** At every step of the run the tiers hold what the single map holds, and give the answer it gives. */
  ghost predicate Lockstep<V(!new)>(t: Tiers<V>, whole: seq<Row<V>>, ops: seq<Op<V>>)
    decreases |ops|
  {
    Represents(t, whole) &&
    (ops == [] ||
     (TiersAnswer(t, ops[0]) == MapAnswer(whole, ops[0])
      && Lockstep(TiersStep(t, ops[0]), MapStep(whole, ops[0]), ops[1..])))
  }

  lemma StepSimulatesIff<V(!new)>(t: Tiers<V>, whole: seq<Row<V>>, op: Op<V>)
    requires Represents(t, whole)
    ensures TiersAnswer(t, op) == MapAnswer(whole, op) && Represents(TiersStep(t, op), MapStep(whole, op))
            <==> (op.Add? ==> AddClear(t, op.name))
  {
    match op
    case Add(name, value) => AddSimulatesIff(t, whole, name, value);
    case EnsureFlat => FlattenSimulates(t, whole);
    case Find(query) => FlattenSimulates(t, whole);
  }

  /** Over whole runs, wherever the tiers are merged: they stay in step with the single map if and only if no
      addition of the run is accepted in a blind spot. */
  lemma {:induction false} RunLockstepIff<V(!new)>(t: Tiers<V>, whole: seq<Row<V>>, ops: seq<Op<V>>)
    requires Represents(t, whole)
    ensures Lockstep(t, whole, ops) <==> RunClear(t, ops)
    decreases |ops|
  {
    if ops != [] {
      StepSimulatesIff(t, whole, ops[0]);
      if Represents(TiersStep(t, ops[0]), MapStep(whole, ops[0])) {
        RunLockstepIff(TiersStep(t, ops[0]), MapStep(whole, ops[0]), ops[1..]);
      }
    }
  }

  /** So every answer of such a run is the answer of the single map. */
  lemma {:induction false} RunRefinesMap<V(!new)>(t: Tiers<V>, whole: seq<Row<V>>, ops: seq<Op<V>>)
    requires Represents(t, whole) && RunClear(t, ops)
    ensures TiersRun(t, ops) == MapRun(whole, ops)
    decreases |ops|
  {
    if ops != [] {
      StepSimulatesIff(t, whole, ops[0]);
      RunRefinesMap(TiersStep(t, ops[0]), MapStep(whole, ops[0]), ops[1..]);
    }
  }

  /** Without that condition the moment of merging is visible: with "a" in the flat tier and "foo.bar"
      in the set, "foo" is accepted before a merge and refused after it. */
  lemma MergeMomentVisible(recent: seq<Row<int>>, flat: seq<Row<int>>)
    requires recent == [Row("foo.bar", 1)] && flat == [Row("a", 0)]
    ensures TiersAccept(Tiers(recent, flat), "foo")
    ensures !TiersAccept(Flatten(Tiers(recent, flat)), "foo")
    ensures !AddClear(Tiers(recent, flat), "foo")
  {
    assert Less("foo", "foo.bar") by { LessAfterPrefix("foo", "", ".bar"); }
    OverlookedIsAccepted(recent, "foo");
    assert Accepts(flat, "foo") by { AfterSmaller(flat); }
    assert Merge(recent, flat[1..], RowBefore()) == recent;
    var merged := Merge(recent, flat, RowBefore());
    assert merged == [Row("a", 0), Row("foo.bar", 1)];
    RefusedAfterSmaller(merged);
  }

  lemma AfterSmaller(t: seq<Row<int>>)
    requires t == [Row("a", 0)]
    ensures Accepts(t, "foo")
  {
    UpperIs(t, "foo");
    assert Less("a", "foo");
    LessAsymmetric("a", "foo");
    assert Upper(t, "foo") == 1;
  }

  lemma RefusedAfterSmaller(t: seq<Row<int>>)
    requires t == [Row("a", 0), Row("foo.bar", 1)] && Less("foo", "foo.bar")
    ensures !Accepts(t, "foo")
  {
    UpperIs(t, "foo");
    assert Less("a", "foo");
    LessAsymmetric("a", "foo");
    assert t[0].name == "a" && t[1].name == "foo.bar";
    assert Upper(t, "foo") == 1;
    assert IsSubSymbol("foo", t[1].name);
  }
}
