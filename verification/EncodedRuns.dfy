/**
 Runs of the encoded index on whole files: the pairs of tiers against one map of file names and one
 sorted map of symbols. The steps are those that the methods of EncodedDatabase are proved to take.
 */
module EncodedRuns {
  import opened Common
  import opened SymbolNames
  import opened SymbolTable
  import opened TwoTiers
  import opened NameTiers
  import opened EncodedDatabase

  /** Both indexes, each in its two tiers. */
  datatype Index = Index(names: Tiers<Value>, symbols: Tiers<Value>)

  /** What they stand for. */
  datatype Maps = Maps(bound: map<string, Value>, whole: seq<Row<Value>>)

  ghost predicate StandsFor(ix: Index, maps: Maps) {
    Names(ix.names, maps.bound) && Represents(ix.symbols, maps.whole)
  }

  // ----- the symbols of one file -----

  datatype MapAdded = MapAdded(ok: bool, whole: seq<Row<Value>>)

  /** AddSymbols on one sorted map. */
  function MapAddSymbols(whole: seq<Row<Value>>, file: EncodedEntry, symbols: seq<string>, from: nat): MapAdded
    requires from <= |symbols|
    decreases |symbols| - from
  {
    if from == |symbols| then MapAdded(true, whole)
    else
      var name := Join(file.package, symbols[from]);
      if Accepts(whole, name) then MapAddSymbols(AddSymbol(whole, name, file.value), file, symbols, from + 1)
      else MapAdded(false, whole)
  }

  /** No symbol that AddSymbols reaches is accepted in a blind spot. */
  predicate SymbolsClear(t: Tiers<Value>, file: EncodedEntry, symbols: seq<string>, from: nat)
    requires from <= |symbols|
    decreases |symbols| - from
  {
    from == |symbols| ||
    (AddClear(t, Join(file.package, symbols[from])) &&
     var one := AddOne(t, file, symbols[from]);
     one.ok ==> SymbolsClear(one.tiers, file, symbols, from + 1))
  }

  lemma {:induction false} StaysBroken(whole: seq<Row<Value>>, file: EncodedEntry, symbols: seq<string>, from: nat)
    requires from <= |symbols| && !PrefixFree(whole)
    ensures !PrefixFree(MapAddSymbols(whole, file, symbols, from).whole)
    decreases |symbols| - from
  {
    if from < |symbols| {
      var name := Join(file.package, symbols[from]);
      AddKeepsBroken(whole, name, file.value);
      if Accepts(whole, name) { StaysBroken(AddSymbol(whole, name, file.value), file, symbols, from + 1); }
    }
  }

  lemma {:induction false} RowStays(t: Tiers<Value>, file: EncodedEntry, symbols: seq<string>, from: nat, r: Row<Value>)
    requires from <= |symbols| && r in t.recent
    ensures r in AddSymbols(t, file, symbols, from).tiers.recent
    decreases |symbols| - from
  {
    if from < |symbols| {
      var one := AddOne(t, file, symbols[from]);
      if one.ok {
        InsertContents(t.recent, Row(Join(file.package, symbols[from]), file.value));
        RowStays(one.tiers, file, symbols, from + 1, r);
      }
    }
  }

  ghost predicate SymbolsAgree(t: Tiers<Value>, whole: seq<Row<Value>>, file: EncodedEntry, symbols: seq<string>,
                               from: nat)
    requires from <= |symbols|
  {
    var added, mapAdded := AddSymbols(t, file, symbols, from), MapAddSymbols(whole, file, symbols, from);
    added.ok == mapAdded.ok && Represents(added.tiers, mapAdded.whole)
  }

  /** The tiers took a symbol that the single map refuses: they are apart from then on. */
  lemma TakenAloneStays(t: Tiers<Value>, whole: seq<Row<Value>>, file: EncodedEntry, symbols: seq<string>, from: nat)
    requires from < |symbols| && Represents(t, whole)
    requires var name := Join(file.package, symbols[from]); TiersAccept(t, name) && !Accepts(whole, name)
    ensures !SymbolsAgree(t, whole, file, symbols, from)
  {
    var r := Row(Join(file.package, symbols[from]), file.value);
    RepresentsParts(t, whole);
    AcceptedIsNew(t.recent, r.name);
    AcceptedIsNew(t.flat, r.name);
    assert r !in whole;
    InsertContents(t.recent, r);
    RowStays(AddOne(t, file, symbols[from]).tiers, file, symbols, from + 1, r);
  }

  /** The tiers end up with the answer and the symbols of the single map if and only if none was accepted in a blind
      spot. */
  lemma {:induction false} SymbolsSimulateIff(t: Tiers<Value>, whole: seq<Row<Value>>, file: EncodedEntry,
                                              symbols: seq<string>, from: nat)
    requires from <= |symbols| && Represents(t, whole)
    ensures SymbolsAgree(t, whole, file, symbols, from) <==> SymbolsClear(t, file, symbols, from)
    decreases |symbols| - from
  {
    if from < |symbols| {
      var name := Join(file.package, symbols[from]);
      AddSimulatesIff(t, whole, name, file.value);
      if AddClear(t, name) {
        if TiersAccept(t, name) {
          SymbolsSimulateIff(AddOne(t, file, symbols[from]).tiers, AddSymbol(whole, name, file.value), file, symbols,
                             from + 1);
        }
      } else if Accepts(whole, name) {
        UnclearTiersBreak(t, whole, name, file.value);
        StaysBroken(AddSymbol(whole, name, file.value), file, symbols, from + 1);
      } else {
        TakenAloneStays(t, whole, file, symbols, from);
      }
    }
  }

  // ----- one file -----

  datatype MapsAdded = MapsAdded(ok: bool, maps: Maps)

  /** AddFile on the two maps: the package, the name, the symbols up to the first refusal. */
  function MapsAddFile(maps: Maps, file: EncodedFile, value: Value): MapsAdded {
    if !Valid(file.package) || file.name in maps.bound then MapsAdded(false, maps)
    else
      var added := MapAddSymbols(maps.whole, EncodedEntry(value, file.package), file.symbols, 0);
      MapsAdded(added.ok, Maps(Bind(maps.bound, file.name, value), added.whole))
  }

  function AddTo(ix: Index, file: EncodedFile, value: Value): FileAdded {
    AddFileRows(ix.names, ix.symbols, file, value)
  }

  /** The file's name is new or its refusal is harmless, and none of its symbols is accepted in a blind spot. */
  predicate FileClear(ix: Index, file: EncodedFile, value: Value) {
    Valid(file.package) ==>
      if AddName(ix.names, file.name, value).ok
      then SymbolsClear(ix.symbols, EncodedEntry(value, file.package), file.symbols, 0)
      else Harmless(ix.names, file.name, value)
  }

  lemma FileSimulatesIff(ix: Index, maps: Maps, file: EncodedFile, value: Value)
    requires StandsFor(ix, maps)
    ensures var added, mapsAdded := AddTo(ix, file, value), MapsAddFile(maps, file, value);
            added.ok == mapsAdded.ok && StandsFor(Index(added.names, added.symbols), mapsAdded.maps)
            <==> FileClear(ix, file, value)
  {
    if Valid(file.package) {
      AddNameSimulatesIff(ix.names, maps.bound, file.name, value);
      SymbolsSimulateIff(ix.symbols, maps.whole, EncodedEntry(value, file.package), file.symbols, 0);
    }
  }

  // ----- whole runs -----

  datatype FileOp =
    | AddFile(file: EncodedFile, value: Value)
    | Merge
    | FindFile(filename: string)
    | FindSymbol(query: string)

  datatype FileAnswer = Took(ok: bool) | Nothing | Answered(value: Option<Value>)

  function IndexAnswer(ix: Index, op: FileOp): FileAnswer {
    match op
    case AddFile(file, value) => Took(AddTo(ix, file, value).ok)
    case Merge => Nothing
    case FindFile(filename) => Answered(FindName(ix.names, filename))
    case FindSymbol(query) => Answered(TiersFind(ix.symbols, query))
  }

  function IndexStep(ix: Index, op: FileOp): Index {
    if op.AddFile? then
      var added := AddTo(ix, op.file, op.value);
      Index(added.names, added.symbols)
    else Index(Flatten(ix.names), Flatten(ix.symbols))
  }

  function MapsAnswer(maps: Maps, op: FileOp): FileAnswer {
    match op
    case AddFile(file, value) => Took(MapsAddFile(maps, file, value).ok)
    case Merge => Nothing
    case FindFile(filename) => Answered(if filename in maps.bound then Some(maps.bound[filename]) else None)
    case FindSymbol(query) => Answered(SymbolTable.FindSymbol(maps.whole, query))
  }

  function MapsStep(maps: Maps, op: FileOp): Maps {
    if op.AddFile? then MapsAddFile(maps, op.file, op.value).maps else maps
  }

  predicate FilesClear(ix: Index, ops: seq<FileOp>)
    decreases |ops|
  {
    ops == [] ||
    ((ops[0].AddFile? ==> FileClear(ix, ops[0].file, ops[0].value)) && FilesClear(IndexStep(ix, ops[0]), ops[1..]))
  }

  /** At every step of the run the index holds what the maps hold, and gives the answer they give. */
  ghost predicate InStep(ix: Index, maps: Maps, ops: seq<FileOp>)
    decreases |ops|
  {
    StandsFor(ix, maps) &&
    (ops == [] ||
     (IndexAnswer(ix, ops[0]) == MapsAnswer(maps, ops[0])
      && InStep(IndexStep(ix, ops[0]), MapsStep(maps, ops[0]), ops[1..])))
  }

  lemma StepIff(ix: Index, maps: Maps, op: FileOp)
    requires StandsFor(ix, maps)
    ensures IndexAnswer(ix, op) == MapsAnswer(maps, op) && StandsFor(IndexStep(ix, op), MapsStep(maps, op))
            <==> (op.AddFile? ==> FileClear(ix, op.file, op.value))
  {
    if op.AddFile? {
      FileSimulatesIff(ix, maps, op.file, op.value);
    } else {
      FlattenKeepsNames(ix.names, maps.bound);
      FlattenSimulates(ix.symbols, maps.whole);
      if op.FindFile? { assert NameAt(ix.names, maps.bound, op.filename); }
    }
  }

  /** Over runs of whole files, lookups and merges, the encoded index stays in step with one map of names and one
      sorted map of symbols if and only if every file that is added is clear. */
  lemma {:induction false} FilesInStepIff(ix: Index, maps: Maps, ops: seq<FileOp>)
    requires StandsFor(ix, maps)
    ensures InStep(ix, maps, ops) <==> FilesClear(ix, ops)
    decreases |ops|
  {
    if ops != [] {
      StepIff(ix, maps, ops[0]);
      if StandsFor(IndexStep(ix, ops[0]), MapsStep(maps, ops[0])) {
        FilesInStepIff(IndexStep(ix, ops[0]), MapsStep(maps, ops[0]), ops[1..]);
      }
    }
  }

  const EMPTY_INDEX := Index(Tiers([], []), Tiers([], []))
  const EMPTY_MAPS := Maps(map[], [])

  lemma EmptyStandsFor()
    ensures StandsFor(EMPTY_INDEX, EMPTY_MAPS)
  {
    forall name
      ensures NameAt(EMPTY_INDEX.names, EMPTY_MAPS.bound, name)
    {
      FindNameIs(EMPTY_INDEX.names, name);
    }
  }

  function IndexRun(ix: Index, ops: seq<FileOp>): (answers: seq<FileAnswer>)
    ensures |answers| == |ops|
    decreases |ops|
  {
    if ops == [] then [] else [IndexAnswer(ix, ops[0])] + IndexRun(IndexStep(ix, ops[0]), ops[1..])
  }

  function MapsRun(maps: Maps, ops: seq<FileOp>): (answers: seq<FileAnswer>)
    ensures |answers| == |ops|
    decreases |ops|
  {
    if ops == [] then [] else [MapsAnswer(maps, ops[0])] + MapsRun(MapsStep(maps, ops[0]), ops[1..])
  }

  lemma {:induction false} InStepAnswers(ix: Index, maps: Maps, ops: seq<FileOp>)
    requires InStep(ix, maps, ops)
    ensures IndexRun(ix, ops) == MapsRun(maps, ops)
    decreases |ops|
  {
    if ops != [] { InStepAnswers(IndexStep(ix, ops[0]), MapsStep(maps, ops[0]), ops[1..]); }
  }

  /** From a new index on: if every file that is added is clear, all answers are those of the two maps. */
  lemma RunFromEmpty(ops: seq<FileOp>)
    requires FilesClear(EMPTY_INDEX, ops)
    ensures IndexRun(EMPTY_INDEX, ops) == MapsRun(EMPTY_MAPS, ops)
  {
    EmptyStandsFor();
    FilesInStepIff(EMPTY_INDEX, EMPTY_MAPS, ops);
    InStepAnswers(EMPTY_INDEX, EMPTY_MAPS, ops);
  }

  // ----- a file that was added is found -----

  predicate IsQualified(package: string, symbol: string, name: string) {
    if package == "" then name == symbol else name == package + "." + symbol
  }

  /** `name` is the qualified form of a symbol of the file, from position `from` on. */
  ghost predicate DeclaredFrom(package: string, symbols: seq<string>, from: nat, name: string) {
    exists i :: from <= i < |symbols| && IsQualified(package, symbols[i], name)
  }

  /** The maps bind the file's name and all its symbols to its value. */
  ghost predicate FileBound(maps: Maps, file: EncodedFile, value: Value) {
    && file.name in maps.bound && maps.bound[file.name] == value
    && forall name :: DeclaredFrom(file.package, file.symbols, 0, name) ==> Row(name, value) in maps.whole
  }

  /** What an addition leaves new in the map is declared, and on success all that is declared is in the map. */
  lemma {:induction false} MapSymbolsBound(whole: seq<Row<Value>>, file: EncodedEntry, symbols: seq<string>, from: nat)
    requires from <= |symbols|
    ensures var added := MapAddSymbols(whole, file, symbols, from);
            && (forall r :: r in whole ==> r in added.whole)
            && (forall r :: r in added.whole && r !in whole ==>
                  DeclaredFrom(file.package, symbols, from, r.name) && r.value == file.value)
            && (added.ok ==> forall name :: DeclaredFrom(file.package, symbols, from, name) ==>
                  Row(name, file.value) in added.whole)
            && (!added.ok ==> exists name ::
                  DeclaredFrom(file.package, symbols, from, name) && !(Valid(name) && !Conflicts(added.whole, name)))
    decreases |symbols| - from
  {
    if from < |symbols| {
      var name := Join(file.package, symbols[from]);
      assert forall x :: IsQualified(file.package, symbols[from], x) <==> x == name;
      if Accepts(whole, name) {
        InsertContents(whole, Row(name, file.value));
        MapSymbolsBound(AddSymbol(whole, name, file.value), file, symbols, from + 1);
      } else if Valid(name) && !Conflicts(whole, name) {
        NoConflictIsAccepted(whole, name);
      }
    }
  }

  /** One file on the maps: on success its name and all its symbols are bound to its value, nothing else is new in any
      case, and it is refused only for its package, its name, or a symbol that cannot be added. */
  lemma MapsAddAsDeclared(maps: Maps, file: EncodedFile, value: Value)
    ensures var o := MapsAddFile(maps, file, value);
            && (o.ok ==> Valid(file.package) && file.name !in maps.bound && FileBound(o.maps, file, value))
            && (forall n :: n in o.maps.bound && n !in maps.bound ==> n == file.name && o.maps.bound[n] == value)
            && (forall r :: r in o.maps.whole && r !in maps.whole ==>
                  DeclaredFrom(file.package, file.symbols, 0, r.name) && r.value == value)
            && (!o.ok ==>
                  || !Valid(file.package) || file.name in maps.bound
                  || exists name :: DeclaredFrom(file.package, file.symbols, 0, name)
                                    && !(Valid(name) && !Conflicts(o.maps.whole, name)))
  {
    MapSymbolsBound(maps.whole, EncodedEntry(value, file.package), file.symbols, 0);
  }

  lemma StepKeepsBound(maps: Maps, op: FileOp, file: EncodedFile, value: Value)
    requires FileBound(maps, file, value)
    ensures FileBound(MapsStep(maps, op), file, value)
  {
    if op.AddFile? {
      MapSymbolsBound(maps.whole, EncodedEntry(op.value, op.file.package), op.file.symbols, 0);
    }
  }

  /** The answer that a lookup owes a file that is bound. */
  ghost predicate Finds(op: FileOp, answer: FileAnswer, file: EncodedFile, value: Value) {
    match op
    case FindFile(filename) => filename == file.name ==> answer == Answered(Some(value))
    case FindSymbol(query) =>
      (exists name :: DeclaredFrom(file.package, file.symbols, 0, name) && IsSubSymbol(name, query)) ==>
        answer == Answered(Some(value))
    case _ => true
  }

  lemma BoundIsFound(maps: Maps, op: FileOp, file: EncodedFile, value: Value)
    requires WellFormed(maps.whole) && FileBound(maps, file, value)
    ensures Finds(op, MapsAnswer(maps, op), file, value)
  {
    if op.FindSymbol? {
      FindSymbolExact(maps.whole, op.query);
      forall name | DeclaredFrom(file.package, file.symbols, 0, name) && IsSubSymbol(name, op.query)
        ensures MapsAnswer(maps, op) == Answered(Some(value))
      {
        var i :| 0 <= i < |maps.whole| && maps.whole[i] == Row(name, value);
        assert Matches(maps.whole, i, op.query);
      }
    }
  }

  lemma {:induction false} StaysFound(ix: Index, maps: Maps, ops: seq<FileOp>, n: nat, file: EncodedFile, value: Value)
    requires InStep(ix, maps, ops) && n < |ops| && FileBound(maps, file, value)
    ensures Finds(ops[n], MapsRun(maps, ops)[n], file, value)
    decreases |ops|
  {
    if n == 0 {
      BoundIsFound(maps, ops[0], file, value);
    } else {
      StepKeepsBound(maps, ops[0], file, value);
      StaysFound(IndexStep(ix, ops[0]), MapsStep(maps, ops[0]), ops[1..], n - 1, file, value);
    }
  }

  lemma RunParts(ix: Index, maps: Maps, ops: seq<FileOp>, i: nat)
    requires InStep(ix, maps, ops) && i < |ops|
    ensures InStep(IndexStep(ix, ops[0]), MapsStep(maps, ops[0]), ops[1..])
    ensures MapsRun(maps, ops)[i] ==
            if i == 0 then MapsAnswer(maps, ops[0]) else MapsRun(MapsStep(maps, ops[0]), ops[1..])[i - 1]
  {
    hide MapsStep, IndexStep, StandsFor;
  }

  lemma {:induction false} FoundAfter(ix: Index, maps: Maps, ops: seq<FileOp>, k: nat, n: nat)
    requires InStep(ix, maps, ops) && k < n < |ops| && ops[k].AddFile?
    requires MapsRun(maps, ops)[k] == Took(true)
    ensures Finds(ops[n], MapsRun(maps, ops)[n], ops[k].file, ops[k].value)
    decreases |ops|
  {
    hide FileBound, Finds, StandsFor, MapsAddFile, MapsRun, InStep, IndexStep;
    var maps' := MapsStep(maps, ops[0]);
    RunParts(ix, maps, ops, k);
    RunParts(ix, maps, ops, n);
    if k == 0 {
      MapsAddAsDeclared(maps, ops[0].file, ops[0].value);
      StaysFound(IndexStep(ix, ops[0]), maps', ops[1..], n - 1, ops[0].file, ops[0].value);
    } else {
      FoundAfter(IndexStep(ix, ops[0]), maps', ops[1..], k - 1, n - 1);
    }
  }

  /** The promise of the database: in a run in which every file is clear, once a file was added successfully its name
      and everything at or below one of its symbols lead to its bytes, however the tiers are merged in between. */
  lemma AddedFileIsFound(ops: seq<FileOp>, k: nat, n: nat)
    requires FilesClear(EMPTY_INDEX, ops) && k < n < |ops| && ops[k].AddFile?
    requires IndexRun(EMPTY_INDEX, ops)[k] == Took(true)
    ensures Finds(ops[n], IndexRun(EMPTY_INDEX, ops)[n], ops[k].file, ops[k].value)
  {
    EmptyStandsFor();
    FilesInStepIff(EMPTY_INDEX, EMPTY_MAPS, ops);
    InStepAnswers(EMPTY_INDEX, EMPTY_MAPS, ops);
    FoundAfter(EMPTY_INDEX, EMPTY_MAPS, ops, k, n);
  }
}
