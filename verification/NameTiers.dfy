/**
 The by-name half of the encoded index: file names in a set tier and a flat tier. A duplicate is
 inserted into the set tier before the flat tier is searched, so a refused addition can change
 what a later lookup finds. This file says exactly when.
 */
module NameTiers {
  import opened Common
  import opened SymbolNames
  import opened SymbolTable
  import opened TwoTiers

  ghost predicate WeaklySorted<V>(t: seq<Row<V>>) {
    forall i, j :: 0 <= i < j < |t| ==> !Less(t[j].name, t[i].name)
  }

  predicate HasName<V>(t: seq<Row<V>>, name: string) {
    exists i :: 0 <= i < |t| && t[i].name == name
  }

  datatype NameAdded<+V> = NameAdded(ok: bool, tiers: Tiers<V>)

  /** InsertIfNotPresent on the set, then a binary search of the flat tier. */
  function AddName<V>(t: Tiers<V>, name: string, value: V): NameAdded<V> {
    if HasName(t.recent, name) then NameAdded(false, t)
    else NameAdded(!HasName(t.flat, name), t.(recent := Insert(t.recent, Row(name, value))))
  }

  function NotBelow<V>(name: string): Row<V> -> bool {
    (r: Row<V>) => !Less(r.name, name)
  }

  /** FindFile: merge, then std::lower_bound. */
  function FindName<V>(t: Tiers<V>, name: string): Option<V> {
    var flat := Flatten(t).flat;
    var i := UpperBound(flat, NotBelow(name));
    if i == |flat| || flat[i].name != name then None else Some(flat[i].value)
  }

  // ----- lookup means the first row of that name, the set tier first -----

  function FirstOf<V>(t: seq<Row<V>>, name: string): Option<V> {
    if t == [] then None else if t[0].name == name then Some(t[0].value) else FirstOf(t[1..], name)
  }

  lemma {:induction false} FirstOfNone<V>(t: seq<Row<V>>, name: string)
    ensures FirstOf(t, name).Some? <==> HasName(t, name)
  {
    if t != [] {
      FirstOfNone(t[1..], name);
      if HasName(t[1..], name) {
        var i :| 0 <= i < |t[1..]| && t[1..][i].name == name;
        assert t[i + 1].name == name;
      }
      if HasName(t, name) && t[0].name != name {
        var i :| 0 <= i < |t| && t[i].name == name;
        assert t[1..][i - 1].name == name;
      }
    }
  }

  lemma {:induction false} LowerBoundFindsFirst<V>(t: seq<Row<V>>, name: string)
    requires WeaklySorted(t)
    ensures var i := UpperBound(t, NotBelow(name));
            FirstOf(t, name) == if i == |t| || t[i].name != name then None else Some(t[i].value)
  {
    if t != [] {
      LessIrreflexive(name);
      if Less(t[0].name, name) {
        LowerBoundFindsFirst(t[1..], name);
      } else if t[0].name != name {
        LessTotal(t[0].name, name);
        forall i | 0 <= i < |t|
          ensures t[i].name != name
        {
          if i > 0 { LessMixedTrans(name, t[0].name, t[i].name); }
        }
        FirstOfNone(t, name);
      }
    }
  }

  lemma {:induction false} MergeFirstOf<V>(a: seq<Row<V>>, b: seq<Row<V>>, name: string)
    requires WeaklySorted(a)
    ensures FirstOf(Merge(a, b, RowBefore()), name) ==
            if FirstOf(a, name).Some? then FirstOf(a, name) else FirstOf(b, name)
  {
    if a != [] && b != [] {
      if Less(b[0].name, a[0].name) {
        MergeFirstOf(a, b[1..], name);
        if b[0].name == name {
          forall i | 0 <= i < |a|
            ensures a[i].name != name
          {
            LessIrreflexive(name);
            if i > 0 { LessMixedTrans(name, a[0].name, a[i].name); }
          }
          FirstOfNone(a, name);
        }
      } else {
        MergeFirstOf(a[1..], b, name);
      }
    }
  }

  lemma WeakTail<V>(t: seq<Row<V>>, r: Row<V>, least: string)
    requires WeaklySorted(t) && r in t && !Less(t[0].name, least)
    ensures !Less(r.name, least)
  {
    var k :| 0 <= k < |t| && t[k] == r;
    if k > 0 { LessMixedTrans(r.name, least, t[0].name); LessMixedTrans(t[0].name, r.name, least); }
  }

  lemma {:induction false} MergeWeaklySorted<V>(a: seq<Row<V>>, b: seq<Row<V>>)
    requires WeaklySorted(a) && WeaklySorted(b)
    ensures WeaklySorted(Merge(a, b, RowBefore()))
  {
    if a != [] && b != [] {
      if Less(b[0].name, a[0].name) {
        LessAsymmetric(b[0].name, a[0].name);
        MergeWeaklySorted(a, b[1..]);
        WeakCons(a, b[1..], b[0]);
      } else {
        MergeWeaklySorted(a[1..], b);
        WeakCons(a[1..], b, a[0]);
      }
    }
  }

  lemma WeakCons<V>(a: seq<Row<V>>, b: seq<Row<V>>, r: Row<V>)
    requires WeaklySorted(a) && WeaklySorted(b) && WeaklySorted(Merge(a, b, RowBefore()))
    requires a != [] ==> !Less(a[0].name, r.name)
    requires b != [] ==> !Less(b[0].name, r.name)
    ensures WeaklySorted([r] + Merge(a, b, RowBefore()))
  {
    var m := Merge(a, b, RowBefore());
    forall k | 0 <= k < |m|
      ensures !Less(m[k].name, r.name)
    {
      assert m[k] in multiset(m);
      assert m[k] in a || m[k] in b;
      if m[k] in a { WeakTail(a, m[k], r.name); } else { WeakTail(b, m[k], r.name); }
    }
  }

  /** The states that additions and merges can reach: the set tier has no duplicates, the flat tier may. */
  ghost predicate Ordered<V>(t: Tiers<V>) {
    Sorted(t.recent) && WeaklySorted(t.flat)
  }

  lemma StrictIsWeak<V>(t: seq<Row<V>>)
    requires Sorted(t)
    ensures WeaklySorted(t)
  {
    forall i, j | 0 <= i < j < |t|
      ensures !Less(t[j].name, t[i].name)
    {
      LessAsymmetric(t[i].name, t[j].name);
    }
  }

  lemma FindNameIs<V>(t: Tiers<V>, name: string)
    requires Ordered(t)
    ensures FindName(t, name) == if HasName(t.recent, name) then FirstOf(t.recent, name) else FirstOf(t.flat, name)
  {
    StrictIsWeak(t.recent);
    MergeWeaklySorted(t.recent, t.flat);
    LowerBoundFindsFirst(Flatten(t).flat, name);
    MergeFirstOf(t.recent, t.flat, name);
    FirstOfNone(t.recent, name);
  }

  // ----- additions -----

  lemma {:induction false} FirstOfConcat<V>(a: seq<Row<V>>, b: seq<Row<V>>, name: string)
    ensures FirstOf(a + b, name) == if FirstOf(a, name).Some? then FirstOf(a, name) else FirstOf(b, name)
  {
    if a == [] {
      assert a + b == b;
    } else {
      assert (a + b)[1..] == a[1..] + b;
      FirstOfConcat(a[1..], b, name);
    }
  }

  lemma InsertFirstOf<V>(t: seq<Row<V>>, r: Row<V>, query: string)
    requires !HasName(t, r.name)
    ensures FirstOf(Insert(t, r), query) == if query == r.name then Some(r.value) else FirstOf(t, query)
  {
    var u := Upper(t, r.name);
    FirstOfConcat(t[..u] + [r], t[u..], query);
    FirstOfConcat(t[..u], [r], query);
    FirstOfConcat(t[..u], t[u..], query);
    assert t == t[..u] + t[u..];
    FirstOfNone(t, r.name);
    FirstOfNone(t[..u], r.name);
    assert [r][1..] == [];
  }

  /** Additions and merges keep the order the lookups rely on. */
  lemma AddNameOrdered<V>(t: Tiers<V>, name: string, value: V)
    requires Ordered(t)
    ensures Ordered(AddName(t, name, value).tiers) && Ordered(Flatten(t))
  {
    StrictIsWeak(t.recent);
    MergeWeaklySorted(t.recent, t.flat);
    if !HasName(t.recent, name) {
      InsertSorted(t.recent, Row(name, value));
    }
  }

  /** A successful addition binds its own name and nothing else. */
  lemma SuccessfulAddBinds<V>(t: Tiers<V>, name: string, value: V, query: string)
    requires Ordered(t) && AddName(t, name, value).ok
    ensures FindName(AddName(t, name, value).tiers, query) == if query == name then Some(value) else FindName(t, query)
  {
    AddNameOrdered(t, name, value);
    FindNameIs(t, query);
    FindNameIs(AddName(t, name, value).tiers, query);
    InsertFirstOf(t.recent, Row(name, value), query);
    FirstOfNone(t.recent, query);
    FirstOfNone(Insert(t.recent, Row(name, value)), query);
  }

  /** The name is still in the set tier, or the flat tier already answers with this value. */
  predicate Harmless<V(==)>(t: Tiers<V>, name: string, value: V) {
    HasName(t.recent, name) || FirstOf(t.flat, name) == Some(value)
  }

  /**
   A refused addition leaves every lookup as it was exactly when the name was still in the set tier or
   the flat tier already answers with the refused value; otherwise the refused file takes the name over.
   */
  lemma RefusedAddHarmlessIff<V>(t: Tiers<V>, name: string, value: V)
    requires Ordered(t) && !AddName(t, name, value).ok
    ensures (forall query :: FindName(AddName(t, name, value).tiers, query) == FindName(t, query))
            <==> Harmless(t, name, value)
    ensures !HasName(t.recent, name) ==> FindName(AddName(t, name, value).tiers, name) == Some(value)
  {
    var after := AddName(t, name, value).tiers;
    AddNameOrdered(t, name, value);
    if !HasName(t.recent, name) {
      forall query
        ensures FindName(after, query) == if query == name then Some(value) else FindName(t, query)
        ensures query == name ==> FindName(t, query) == FirstOf(t.flat, name)
      {
        FindNameIs(t, query);
        FindNameIs(after, query);
        InsertFirstOf(t.recent, Row(name, value), query);
        FirstOfNone(t.recent, query);
        FirstOfNone(Insert(t.recent, Row(name, value)), query);
      }
      assert FindName(after, name) == Some(value);
      assert FindName(t, name) == FirstOf(t.flat, name);
    }
  }

  /** Two adds and one lookup between them show it: the second "a.proto" is refused and then found. */
  lemma RefusedAddTakesOver()
    ensures var t := Flatten(AddName(Tiers([], []), "a.proto", 1).tiers);
            var second := AddName(t, "a.proto", 2);
            FindName(t, "a.proto") == Some(1) && !second.ok && FindName(second.tiers, "a.proto") == Some(2)
  {
    var empty: Tiers<int> := Tiers([], []);
    var first := AddName(empty, "a.proto", 1);
    assert first.ok && first.tiers == Tiers([Row("a.proto", 1)], []);
    var t := Flatten(first.tiers);
    assert t == Tiers([], [Row("a.proto", 1)]);
    FindNameIs(t, "a.proto");
    assert t.flat[0].name == "a.proto";
    RefusedAddHarmlessIff(t, "a.proto", 2);
  }

  // ----- whole runs -----

  /** Between them the tiers name what the map names, and lookups answer what the map answers. */
  ghost predicate Names<V(!new)>(t: Tiers<V>, bound: map<string, V>) {
    Ordered(t) && forall name :: NameAt(t, bound, name)
  }

  ghost predicate NameAt<V>(t: Tiers<V>, bound: map<string, V>, name: string) {
    FindName(t, name) == if name in bound then Some(bound[name]) else None
  }

  lemma NamedIsFound<V>(t: Tiers<V>, name: string)
    requires Ordered(t)
    ensures FindName(t, name).Some? <==> HasName(t.recent, name) || HasName(t.flat, name)
  {
    FindNameIs(t, name);
    FirstOfNone(t.recent, name);
    FirstOfNone(t.flat, name);
  }

  function Bind<V>(bound: map<string, V>, name: string, value: V): map<string, V> {
    if name in bound then bound else bound[name := value]
  }

  /** An addition succeeds exactly for names the map does not have; tiers and map stay together if and only if
      it succeeds or its refusal is harmless. */
  lemma AddNameSimulatesIff<V(!new)>(t: Tiers<V>, bound: map<string, V>, name: string, value: V)
    requires Names(t, bound)
    ensures AddName(t, name, value).ok <==> name !in bound
    ensures Names(AddName(t, name, value).tiers, Bind(bound, name, value))
            <==> AddName(t, name, value).ok || Harmless(t, name, value)
  {
    var after := AddName(t, name, value);
    AddNameOrdered(t, name, value);
    NamedIsFound(t, name);
    assert NameAt(t, bound, name);
    if !after.ok { RefusedAddHarmlessIff(t, name, value); }
    if after.ok || Harmless(t, name, value) {
      forall query
        ensures NameAt(after.tiers, Bind(bound, name, value), query)
      {
        assert NameAt(t, bound, query);
        if after.ok { SuccessfulAddBinds(t, name, value, query); }
      }
    } else {
      FindNameIs(t, name);
      assert !NameAt(after.tiers, bound, name);
    }
  }

  lemma FlattenKeepsNames<V(!new)>(t: Tiers<V>, bound: map<string, V>)
    requires Names(t, bound)
    ensures Names(Flatten(t), bound)
  {
    StrictIsWeak(t.recent);
    MergeWeaklySorted(t.recent, t.flat);
    forall name
      ensures NameAt(Flatten(t), bound, name)
    {
      assert NameAt(t, bound, name);
      assert Flatten(Flatten(t)).flat == Flatten(t).flat;
    }
  }

  function NamesAnswer<V>(t: Tiers<V>, op: Op<V>): Answer<V> {
    match op
    case Add(name, value) => Added(AddName(t, name, value).ok)
    case EnsureFlat => Silent
    case Find(query) => Found(FindName(t, query))
  }

  function NamesStep<V>(t: Tiers<V>, op: Op<V>): Tiers<V> {
    if op.Add? then AddName(t, op.name, op.value).tiers else Flatten(t)
  }

  function NamesRun<V>(t: Tiers<V>, ops: seq<Op<V>>): seq<Answer<V>>
    decreases |ops|
  {
    if ops == [] then [] else [NamesAnswer(t, ops[0])] + NamesRun(NamesStep(t, ops[0]), ops[1..])
  }

  /** The answers of a plain map that keeps its first binding of a name. */
  function BindingsAnswer<V>(bound: map<string, V>, op: Op<V>): Answer<V> {
    match op
    case Add(name, value) => Added(name !in bound)
    case EnsureFlat => Silent
    case Find(query) => Found(if query in bound then Some(bound[query]) else None)
  }

  function BindingsStep<V>(bound: map<string, V>, op: Op<V>): map<string, V> {
    if op.Add? then Bind(bound, op.name, op.value) else bound
  }

  function BindingsRun<V>(bound: map<string, V>, ops: seq<Op<V>>): seq<Answer<V>>
    decreases |ops|
  {
    if ops == [] then [] else [BindingsAnswer(bound, ops[0])] + BindingsRun(BindingsStep(bound, ops[0]), ops[1..])
  }

  predicate StepHarmless<V(==)>(t: Tiers<V>, op: Op<V>) {
    op.Add? ==> AddName(t, op.name, op.value).ok || Harmless(t, op.name, op.value)
  }

  predicate RunHarmless<V(==)>(t: Tiers<V>, ops: seq<Op<V>>)
    decreases |ops|
  {
    ops == [] || (StepHarmless(t, ops[0]) && RunHarmless(NamesStep(t, ops[0]), ops[1..]))
  }

  /** At every step of the run the tiers name what the map names, and give the answer it gives. */
  ghost predicate NamesLockstep<V(!new)>(t: Tiers<V>, bound: map<string, V>, ops: seq<Op<V>>)
    decreases |ops|
  {
    Names(t, bound) &&
    (ops == [] ||
     (NamesAnswer(t, ops[0]) == BindingsAnswer(bound, ops[0])
      && NamesLockstep(NamesStep(t, ops[0]), BindingsStep(bound, ops[0]), ops[1..])))
  }

  lemma NamesStepIff<V(!new)>(t: Tiers<V>, bound: map<string, V>, op: Op<V>)
    requires Names(t, bound)
    ensures NamesAnswer(t, op) == BindingsAnswer(bound, op)
    ensures Names(NamesStep(t, op), BindingsStep(bound, op)) <==> StepHarmless(t, op)
  {
    match op
    case Add(name, value) => AddNameSimulatesIff(t, bound, name, value);
    case EnsureFlat => FlattenKeepsNames(t, bound);
    case Find(query) =>
      assert NameAt(t, bound, query);
      FlattenKeepsNames(t, bound);
  }

  /** Over whole runs, wherever the tiers are merged: they stay in step with the plain map if and only if every
      refusal is harmless. */
  lemma {:induction false} NamesLockstepIff<V(!new)>(t: Tiers<V>, bound: map<string, V>, ops: seq<Op<V>>)
    requires Names(t, bound)
    ensures NamesLockstep(t, bound, ops) <==> RunHarmless(t, ops)
    decreases |ops|
  {
    if ops != [] {
      NamesStepIff(t, bound, ops[0]);
      if StepHarmless(t, ops[0]) {
        NamesLockstepIff(NamesStep(t, ops[0]), BindingsStep(bound, ops[0]), ops[1..]);
      }
    }
  }

  /** So every answer of such a run is the answer of the plain map. */
  lemma {:induction false} NamesRunRefinesMap<V(!new)>(t: Tiers<V>, bound: map<string, V>, ops: seq<Op<V>>)
    requires Names(t, bound) && RunHarmless(t, ops)
    ensures NamesRun(t, ops) == BindingsRun(bound, ops)
    decreases |ops|
  {
    if ops != [] {
      NamesStepIff(t, bound, ops[0]);
      NamesRunRefinesMap(NamesStep(t, ops[0]), BindingsStep(bound, ops[0]), ops[1..]);
    }
  }
}
