/**
 The sorted symbol table of the descriptor index, as values: floor lookup, the
 two-neighbour conflict check of AddSymbol, and what they mean for the whole table.
 */
module SymbolTable {
  import opened Common
  import opened SymbolNames

  datatype Row<+V> = Row(name: string, value: V)

  ghost predicate Sorted<V>(t: seq<Row<V>>) {
    forall i, j :: 0 <= i < j < |t| ==> Less(t[i].name, t[j].name)
  }

  ghost predicate AllValid<V>(t: seq<Row<V>>) {
    forall i :: 0 <= i < |t| ==> Valid(t[i].name)
  }

  /** The documented map invariant: no key is the sub-symbol of another key. */
  ghost predicate PrefixFree<V>(t: seq<Row<V>>) {
    forall i, j :: 0 <= i < |t| && 0 <= j < |t| && i != j ==> !IsSubSymbol(t[i].name, t[j].name)
  }

  ghost predicate WellFormed<V>(t: seq<Row<V>>) {
    Sorted(t) && AllValid(t) && PrefixFree(t)
  }

  /** std::upper_bound on a sorted range: the first position whose element satisfies `above`. */
  function UpperBound<T>(s: seq<T>, above: T -> bool): (u: nat)
    ensures u <= |s|
  {
    if s == [] || above(s[0]) then 0 else 1 + UpperBound(s[1..], above)
  }

  /** FindLastLessOrEqual: one before the upper bound, except that it cannot go below begin(). */
  function FindLastLessOrEqual<T>(s: seq<T>, above: T -> bool): (i: nat) {
    var u := UpperBound(s, above);
    if u == 0 then 0 else u - 1
  }

  function Above<V>(name: string): Row<V> -> bool {
    (r: Row<V>) => Less(name, r.name)
  }

  /** The position of the first key above `name`. */
  function Upper<V>(t: seq<Row<V>>, name: string): (u: nat)
    ensures u <= |t|
  {
    UpperBound(t, Above(name))
  }

  lemma {:induction false} UpperIs<V>(t: seq<Row<V>>, name: string)
    ensures forall k :: 0 <= k < Upper(t, name) ==> !Less(name, t[k].name)
    ensures Upper(t, name) < |t| ==> Less(name, t[Upper(t, name)].name)
  {
    if t != [] && !Less(name, t[0].name) { UpperIs(t[1..], name); }
  }

  /** The neighbour check: `i` is where FindLastLessOrEqual stopped; end() is |names|. */
  predicate NeighboursClear<V>(t: seq<Row<V>>, i: nat, name: string)
    requires i <= |t|
  {
    i == |t| ||
    (!IsSubSymbol(t[i].name, name) && (i + 1 == |t| || !IsSubSymbol(name, t[i + 1].name)))
  }

  predicate Accepts<V>(t: seq<Row<V>>, name: string) {
    Valid(name) && NeighboursClear(t, FindLastLessOrEqual(t, Above(name)), name)
  }

  function Insert<V>(t: seq<Row<V>>, r: Row<V>): seq<Row<V>> {
    var u := Upper(t, r.name);
    t[..u] + [r] + t[u..]
  }

  function AddSymbol<V>(t: seq<Row<V>>, name: string, value: V): seq<Row<V>> {
    if Accepts(t, name) then Insert(t, Row(name, value)) else t
  }

  function FindSymbol<V>(t: seq<Row<V>>, name: string): Option<V> {
    var i := FindLastLessOrEqual(t, Above(name));
    if i < |t| && IsSubSymbol(t[i].name, name) then Some(t[i].value) else None
  }

  // ----- what the neighbour check decides -----

  ghost predicate Related(a: string, b: string) {
    IsSubSymbol(a, b) || IsSubSymbol(b, a)
  }

  /** Some key equals `name`, encloses it, or is enclosed by it. */
  ghost predicate Conflicts<V>(t: seq<Row<V>>, name: string) {
    exists i :: 0 <= i < |t| && Related(t[i].name, name)
  }

  /**
   The blind spot: every key sorts after `name`, so the floor lookup returns the first key and
   the successor step skips it; that key is a child of `name` and the second one is not.
   */
  predicate Overlooks<V>(t: seq<Row<V>>, name: string) {
    |t| > 0 && Less(name, t[0].name) && IsSubSymbol(name, t[0].name) &&
    !(|t| > 1 && IsSubSymbol(name, t[1].name))
  }

  /** A key at or below the floor: the enclosing key of `name`, if there is one, is the floor itself. */
  lemma ParentIsFloor<V>(t: seq<Row<V>>, name: string, p: nat)
    requires WellFormed(t)
    requires p < |t| && IsSubSymbol(t[p].name, name)
    ensures p == FindLastLessOrEqual(t, Above(name))
    ensures Upper(t, name) == p + 1
  {
    UpperIs(t, name);
    var u := Upper(t, name);
    PrefixNotGreater(t[p].name, name);
    if u <= p {
      if u < p { LessTrans(name, t[u].name, t[p].name); }
      assert false;
    } else if p < u - 1 {
      LessAsymmetric(t[p].name, t[u - 1].name);
      Between(t[p].name, t[u - 1].name, name);
      assert false;
    }
  }

  /** A key enclosed by `name`: if there is one, the first key above `name` is one. */
  lemma ChildIsSuccessor<V>(t: seq<Row<V>>, name: string, c: nat)
    requires Sorted(t) && AllValid(t)
    requires c < |t| && IsSubSymbol(name, t[c].name) && name != t[c].name
    ensures Upper(t, name) <= c
    ensures IsSubSymbol(name, t[Upper(t, name)].name)
  {
    UpperIs(t, name);
    var u := Upper(t, name);
    SubSymbolNotGreater(name, t[c].name);
    if u < c {
      LessAsymmetric(t[u].name, t[c].name);
      LessAsymmetric(name, t[u].name);
      Between(name, t[u].name, t[c].name);
    }
  }

  /** Outside the blind spot a related key is the floor or its successor, so it is seen. */
  lemma ConflictIsSeen<V>(t: seq<Row<V>>, name: string)
    requires WellFormed(t) && Valid(name) && Conflicts(t, name) && !Overlooks(t, name)
    ensures !Accepts(t, name)
  {
    var k :| 0 <= k < |t| && Related(t[k].name, name);
    if IsSubSymbol(t[k].name, name) { ParentIsFloor(t, name, k); } else { ChildIsSeen(t, name, k); }
  }

  lemma ChildIsSeen<V>(t: seq<Row<V>>, name: string, c: nat)
    requires Sorted(t) && AllValid(t) && !Overlooks(t, name)
    requires c < |t| && IsSubSymbol(name, t[c].name) && name != t[c].name
    ensures !Accepts(t, name)
  {
    hide IsSubSymbol, Valid, Sorted;
    UpperIs(t, name);
    ChildIsSuccessor(t, name, c);
  }

  lemma NoConflictIsAccepted<V>(t: seq<Row<V>>, name: string)
    requires Valid(name) && !Conflicts(t, name)
    ensures Accepts(t, name)
  {
    var i := FindLastLessOrEqual(t, Above(name));
    assert i < |t| ==> !Related(t[i].name, name);
    assert i + 1 < |t| ==> !Related(t[i + 1].name, name);
  }

  /** Looking at two keys decides the whole table, except in the blind spot. */
  lemma NeighbourCheckExact<V>(t: seq<Row<V>>, name: string)
    requires WellFormed(t) && Valid(name)
    ensures (Accepts(t, name) <==> !Conflicts(t, name)) <==> !Overlooks(t, name)
  {
    hide Accepts, Overlooks, Conflicts;
    if Overlooks(t, name) {
      OverlookedIsAccepted(t, name);
    } else if Conflicts(t, name) {
      ConflictIsSeen(t, name);
    } else {
      NoConflictIsAccepted(t, name);
    }
  }

  lemma OverlookedIsAccepted<V>(t: seq<Row<V>>, name: string)
    requires Overlooks(t, name) && Valid(name)
    ensures Accepts(t, name)
    ensures Conflicts(t, name)
  {
    UpperIs(t, name);
    LessAsymmetric(name, t[0].name);
    assert Upper(t, name) == 0;
    if IsSubSymbol(t[0].name, name) { SubSymbolNotGreater(t[0].name, name); }
    assert Related(t[0].name, name);
  }

  // ----- insertion -----

  lemma InsertContents<V>(t: seq<Row<V>>, r: Row<V>)
    ensures |Insert(t, r)| == |t| + 1
    ensures multiset(Insert(t, r)) == multiset(t) + multiset{r}
    ensures forall x :: x in Insert(t, r) <==> x in t || x == r
  {
    var u := Upper(t, r.name);
    assert t == t[..u] + t[u..];
  }

  lemma InsertSorted<V>(t: seq<Row<V>>, r: Row<V>)
    requires Sorted(t)
    requires forall i :: 0 <= i < |t| ==> t[i].name != r.name
    ensures Sorted(Insert(t, r))
  {
    UpperIs(t, r.name);
    var u := Upper(t, r.name);
    forall i | 0 <= i < |t|
      ensures i < u ==> Less(t[i].name, r.name)
      ensures u <= i ==> Less(r.name, t[i].name)
    {
      LessTotal(t[i].name, r.name);
      if u < i { LessTrans(r.name, t[u].name, t[i].name); }
    }
  }

  /** An accepted symbol is new, so the table stays sorted, prefix-free or not. */
  lemma AcceptedIsNew<V>(t: seq<Row<V>>, name: string)
    requires Sorted(t) && AllValid(t) && Accepts(t, name)
    ensures forall i :: 0 <= i < |t| ==> t[i].name != name
  {
    UpperIs(t, name);
    var u := Upper(t, name);
    LessIrreflexive(name);
    forall k | 0 <= k < |t|
      ensures t[k].name != name
    {
      if u < k {
        LessTrans(name, t[u].name, t[k].name);
      } else if k < u - 1 {
        assert Less(t[k].name, t[u - 1].name);
      }
    }
  }

  lemma AddKeepsSorted<V>(t: seq<Row<V>>, name: string, value: V)
    requires Sorted(t) && AllValid(t)
    ensures Sorted(AddSymbol(t, name, value)) && AllValid(AddSymbol(t, name, value))
  {
    if Accepts(t, name) {
      AcceptedIsNew(t, name);
      InsertSorted(t, Row(name, value));
    }
  }

  lemma InsertPrefixFree<V>(t: seq<Row<V>>, r: Row<V>)
    requires PrefixFree(t) && !Conflicts(t, r.name)
    ensures PrefixFree(Insert(t, r))
  {
    var u := Upper(t, r.name);
    var t' := Insert(t, r);
    forall i | 0 <= i < |t'|
      ensures i != u ==> t'[i] == t[if i < u then i else i - 1] && !Related(t'[i].name, r.name)
    {
      if i != u { assert t'[i] == t[if i < u then i else i - 1]; }
    }
    forall i, j | 0 <= i < |t'| && 0 <= j < |t'| && i != j
      ensures !IsSubSymbol(t'[i].name, t'[j].name)
    {
      assert i == u ==> t'[i] == r;
      assert j == u ==> t'[j] == r;
    }
  }

  lemma InsertOverlooked<V>(t: seq<Row<V>>, r: Row<V>)
    requires Overlooks(t, r.name)
    ensures !PrefixFree(Insert(t, r))
  {
    UpperIs(t, r.name);
    var t' := Insert(t, r);
    assert Upper(t, r.name) == 0;
    assert t'[0] == r && t'[1] == t[0];
  }

  /** One AddSymbol keeps the documented invariant exactly when it is not in the blind spot. */
  lemma AddKeepsPrefixFree<V>(t: seq<Row<V>>, name: string, value: V)
    requires WellFormed(t)
    ensures PrefixFree(AddSymbol(t, name, value)) <==> (Valid(name) ==> !Overlooks(t, name))
  {
    if Valid(name) {
      NeighbourCheckExact(t, name);
      if Overlooks(t, name) {
        OverlookedIsAccepted(t, name);
        InsertOverlooked(t, Row(name, value));
      } else if Accepts(t, name) {
        InsertPrefixFree(t, Row(name, value));
      }
    }
  }

  /** Where a row is after an insertion. */
  function InsertedAt<V>(t: seq<Row<V>>, r: Row<V>, i: nat): (k: nat)
    requires i < |t|
    ensures k < |Insert(t, r)| && Insert(t, r)[k] == t[i] && k == if i < Upper(t, r.name) then i else i + 1
  {
    if i < Upper(t, r.name) then i else i + 1
  }

  /** Insertion never repairs a broken table. */
  lemma AddKeepsBroken<V>(t: seq<Row<V>>, name: string, value: V)
    requires !PrefixFree(t)
    ensures !PrefixFree(AddSymbol(t, name, value))
  {
    hide IsSubSymbol, Insert, Upper, Accepts;
    if Accepts(t, name) {
      var i, j :| 0 <= i < |t| && 0 <= j < |t| && i != j && IsSubSymbol(t[i].name, t[j].name);
      var i', j' := InsertedAt(t, Row(name, value), i), InsertedAt(t, Row(name, value), j);
      assert IsSubSymbol(AddSymbol(t, name, value)[i'].name, AddSymbol(t, name, value)[j'].name);
    }
  }

  // ----- lookup -----

  ghost predicate Matches<V>(t: seq<Row<V>>, i: int, query: string) {
    0 <= i < |t| && IsSubSymbol(t[i].name, query)
  }

  /** At most one key of a prefix-free table encloses a name. */
  lemma MatchUnique<V>(t: seq<Row<V>>, i: int, j: int, query: string)
    requires PrefixFree(t) && Matches(t, i, query) && Matches(t, j, query)
    ensures i == j
  {
    ParentsComparable(t[i].name, t[j].name, query);
  }

  /** FindSymbol, for any query bytes: the value of the one enclosing key, or nothing when there is none. */
  lemma FindSymbolExact<V>(t: seq<Row<V>>, query: string)
    requires WellFormed(t)
    ensures FindSymbol(t, query).Some? <==> exists i :: Matches(t, i, query)
    ensures forall i :: Matches(t, i, query) ==> FindSymbol(t, query) == Some(t[i].value)
  {
    forall i | Matches(t, i, query)
      ensures FindSymbol(t, query) == Some(t[i].value)
    {
      ParentIsFloor(t, query, i);
    }
    if FindSymbol(t, query).Some? {
      assert Matches(t, FindLastLessOrEqual(t, Above(query)), query);
    }
  }

  /** Lookups answer with the keys that enclose the query, and with nothing when there is none. */
  ghost predicate LookupExact<V>(t: seq<Row<V>>, query: string) {
    && (FindSymbol(t, query).Some? <==> exists i :: Matches(t, i, query))
    && forall i :: Matches(t, i, query) ==> FindSymbol(t, query) == Some(t[i].value)
  }

  ghost predicate Enclosed<V>(t: seq<Row<V>>, j: nat) {
    exists i :: 0 <= i < j < |t| && IsSubSymbol(t[i].name, t[j].name)
  }

  /** Two keys of a sorted table that are related are related forwards. */
  lemma SomeEnclosed<V>(t: seq<Row<V>>)
    requires Sorted(t) && !PrefixFree(t)
    ensures exists j :: 0 <= j < |t| && Enclosed(t, j)
  {
    var i, j :| 0 <= i < |t| && 0 <= j < |t| && i != j && IsSubSymbol(t[i].name, t[j].name);
    SubSymbolNotGreater(t[i].name, t[j].name);
    if j < i { LessAsymmetric(t[j].name, t[i].name); }
    assert Enclosed(t, j);
  }

  lemma {:induction false} LastEnclosed<V>(t: seq<Row<V>>, n: nat) returns (j: nat)
    requires n <= |t| && exists k :: 0 <= k < n && Enclosed(t, k)
    ensures j < n && Enclosed(t, j) && forall k :: j < k < n ==> !Enclosed(t, k)
  {
    if Enclosed(t, n - 1) { j := n - 1; } else { j := LastEnclosed(t, n - 1); }
  }

  /** A key between an enclosed key and that key with "0" appended is enclosed as well. */
  lemma NextIsEnclosed<V>(t: seq<Row<V>>, i: nat, j: nat, k: nat)
    requires Sorted(t) && AllValid(t) && i < j < k < |t| && IsSubSymbol(t[i].name, t[j].name) && t[i].name != t[j].name
    requires !Less(t[j].name + "0", t[k].name)
    ensures Enclosed(t, k)
  {
    GapBeforeZero(t[j].name, t[k].name);
    assert t[k].name == t[j].name + "0" ==> IsSubSymbol(t[i].name, t[k].name);
  }

  /** Where a name goes whose floor is known. */
  lemma UpperBehind<V>(t: seq<Row<V>>, name: string, j: nat)
    requires Sorted(t) && j < |t| && !Less(name, t[j].name)
    requires j + 1 < |t| ==> Less(name, t[j + 1].name)
    ensures Upper(t, name) == j + 1
  {
    UpperIs(t, name);
    var u := Upper(t, name);
    if u < j { LessTrans(name, t[u].name, t[j].name); }
  }

  /** The last key enclosed by another one, with "0" appended, is a name that the other one encloses and that is not
      found. */
  lemma EnclosedIsMissed<V>(t: seq<Row<V>>, i: nat, j: nat)
    requires Sorted(t) && AllValid(t) && i < j < |t| && IsSubSymbol(t[i].name, t[j].name)
    requires forall k :: j < k < |t| ==> !Enclosed(t, k)
    ensures Matches(t, i, t[j].name + "0") && FindSymbol(t, t[j].name + "0") == None
  {
    var query := t[j].name + "0";
    LessAsymmetric(t[i].name, t[j].name);
    PrefixNotGreater(t[j].name, query);
    if j + 1 < |t| && !Less(query, t[j + 1].name) { NextIsEnclosed(t, i, j, j + 1); }
    UpperBehind(t, query, j);
    assert query[|t[j].name|] == '0' && query[..|t[j].name|] == t[j].name;
  }

  /** Lookups in a sorted table of valid names are exact for every query if and only if the table is prefix-free. */
  lemma LookupExactIff<V>(t: seq<Row<V>>)
    requires Sorted(t) && AllValid(t)
    ensures (forall query :: LookupExact(t, query)) <==> PrefixFree(t)
  {
    if PrefixFree(t) {
      forall query
        ensures LookupExact(t, query)
      {
        FindSymbolExact(t, query);
      }
    } else {
      SomeEnclosed(t);
      var j := LastEnclosed(t, |t|);
      var i :| 0 <= i < j < |t| && IsSubSymbol(t[i].name, t[j].name);
      EnclosedIsMissed(t, i, j);
      assert !LookupExact(t, t[j].name + "0");
    }
  }

  /**
   The blind spot is reachable with two adds, and afterwards a lookup below an indexed symbol
   finds nothing: "foo.bar" then "foo" are both accepted, and "foo.baz" is not found under "foo".
   */
  lemma BlindSpotExample(t: seq<Row<int>>)
    requires t == AddSymbol([], "foo.bar", 1)
    ensures t == [Row("foo.bar", 1)] && Overlooks(t, "foo") && Accepts(t, "foo")
    ensures var broken := AddSymbol(t, "foo", 2);
            FindSymbol(broken, "foo.baz") == None && Matches(broken, 0, "foo.baz")
  {
    hide AddSymbol, FindSymbol, Overlooks, Accepts, Matches;
    FirstSymbol(t);
    BlindSpotAdd(t);
    BlindSpotLookup(AddSymbol(t, "foo", 2));
  }

  lemma FirstSymbol(t: seq<Row<int>>)
    requires t == AddSymbol([], "foo.bar", 1)
    ensures t == [Row("foo.bar", 1)]
  {
  }

  lemma BlindSpotAdd(t: seq<Row<int>>)
    requires t == [Row("foo.bar", 1)]
    ensures Overlooks(t, "foo") && Accepts(t, "foo") && AddSymbol(t, "foo", 2) == [Row("foo", 2)] + t
  {
    assert Less("foo", "foo.bar") by { LessAfterPrefix("foo", "", ".bar"); }
    OverlookedIsAccepted(t, "foo");
    UpperIs(t, "foo");
  }

  lemma BlindSpotLookup(t: seq<Row<int>>)
    requires t == [Row("foo", 2), Row("foo.bar", 1)]
    ensures FindSymbol(t, "foo.baz") == None
    ensures Matches(t, 0, "foo.baz")
  {
    UpperIs(t, "foo.baz");
    assert !Less("foo.baz", "foo.bar") by { LessAfterPrefix("foo.ba", "z", "r"); }
    assert !Less("foo.baz", "foo") by { PrefixNotGreater("foo", "foo.baz"); }
    assert Upper(t, "foo.baz") == 2;
    assert !IsSubSymbol("foo.bar", "foo.baz");
  }
}
