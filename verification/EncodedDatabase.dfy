/**
 The index object of EncodedDescriptorDatabase. Entries keep an offset into all_values_ and
 their own part of the name; the package is stored once per file. The methods are proved against
 the row-level functions of TwoTiers and NameTiers.
 */
module EncodedDatabase {
  import opened Common
  import opened SymbolNames
  import opened SymbolTable
  import opened SymbolCompare
  import opened TwoTiers
  import opened NameTiers

  /** A pointer to encoded bytes and their size. */
  datatype Value = Value(data: nat, size: int)

  datatype EncodedEntry = EncodedEntry(value: Value, package: string)
  datatype FileEntry = FileEntry(dataOffset: nat, name: string)
  datatype SymbolEntry = SymbolEntry(dataOffset: nat, symbol: string)

  /** What AddFile reads of a parsed file: its name, its package and its top-level symbols in order. */
  datatype EncodedFile = EncodedFile(name: string, package: string, symbols: seq<string>)

  function ValueAt(values: seq<EncodedEntry>, i: nat): EncodedEntry {
    if i < |values| then values[i] else EncodedEntry(Value(0, 0), [])
  }

  function OperandOf(values: seq<EncodedEntry>, e: SymbolEntry): Operand {
    Entry(ValueAt(values, e.dataOffset).package, e.symbol)
  }

  function NameOf(values: seq<EncodedEntry>, e: SymbolEntry): string {
    AsString(OperandOf(values, e))
  }

  // ----- tiers of entries and the rows they stand for -----

  function RowOf(values: seq<EncodedEntry>, e: SymbolEntry): Row<Value> {
    Row(NameOf(values, e), ValueAt(values, e.dataOffset).value)
  }

  function SymbolRows(values: seq<EncodedEntry>, tier: seq<SymbolEntry>): (rows: seq<Row<Value>>)
    ensures |rows| == |tier|
  {
    if tier == [] then [] else [RowOf(values, tier[0])] + SymbolRows(values, tier[1..])
  }

  function NameRows(values: seq<EncodedEntry>, tier: seq<FileEntry>): (rows: seq<Row<Value>>)
    ensures |rows| == |tier|
  {
    if tier == [] then []
    else [Row(tier[0].name, ValueAt(values, tier[0].dataOffset).value)] + NameRows(values, tier[1..])
  }

  lemma {:induction false} SymbolRowsAt(values: seq<EncodedEntry>, tier: seq<SymbolEntry>)
    ensures forall i :: 0 <= i < |tier| ==> SymbolRows(values, tier)[i] == RowOf(values, tier[i])
  {
    if tier != [] { SymbolRowsAt(values, tier[1..]); }
  }

  lemma {:induction false} NameRowsAt(values: seq<EncodedEntry>, tier: seq<FileEntry>)
    ensures forall i :: 0 <= i < |tier| ==>
            NameRows(values, tier)[i] == Row(tier[i].name, ValueAt(values, tier[i].dataOffset).value)
  {
    if tier != [] { NameRowsAt(values, tier[1..]); }
  }

  function RowTiers(values: seq<EncodedEntry>, recent: seq<SymbolEntry>, flat: seq<SymbolEntry>): Tiers<Value> {
    Tiers(SymbolRows(values, recent), SymbolRows(values, flat))
  }

  function NameTiersOf(values: seq<EncodedEntry>, recent: seq<FileEntry>, flat: seq<FileEntry>): Tiers<Value> {
    Tiers(NameRows(values, recent), NameRows(values, flat))
  }

  /** Where the entry comparator puts a key: the first entry it orders before. */
  function UpperEntry(values: seq<EncodedEntry>, tier: seq<SymbolEntry>, key: Operand): (u: nat)
    ensures u <= |tier|
  {
    if tier == [] || Before(key, OperandOf(values, tier[0])) then 0 else 1 + UpperEntry(values, tier[1..], key)
  }

  function FloorEntry(values: seq<EncodedEntry>, tier: seq<SymbolEntry>, key: Operand): nat {
    var u := UpperEntry(values, tier, key);
    if u == 0 then 0 else u - 1
  }

  function UpperName(tier: seq<FileEntry>, name: string): (u: nat)
    ensures u <= |tier|
  {
    if tier == [] || Less(name, tier[0].name) then 0 else 1 + UpperName(tier[1..], name)
  }

  function LowerName(tier: seq<FileEntry>, name: string): (u: nat)
    ensures u <= |tier|
  {
    if tier == [] || !Less(tier[0].name, name) then 0 else 1 + LowerName(tier[1..], name)
  }

  predicate SymbolsNamed(tier: seq<SymbolEntry>) {
    forall i :: 0 <= i < |tier| ==> tier[i].symbol != []
  }

  predicate SymbolOffsetsBelow(tier: seq<SymbolEntry>, n: nat) {
    forall i :: 0 <= i < |tier| ==> tier[i].dataOffset < n
  }

  predicate NameOffsetsBelow(tier: seq<FileEntry>, n: nat) {
    forall i :: 0 <= i < |tier| ==> tier[i].dataOffset < n
  }

  /** A position by the entry comparator is the position of the joined name in the rows. */
  lemma {:induction false} PositionOfName(values: seq<EncodedEntry>, tier: seq<SymbolEntry>, key: Operand)
    requires SymbolsNamed(tier)
    ensures UpperEntry(values, tier, key) == Upper(SymbolRows(values, tier), AsString(key))
  {
    if tier != [] {
      BeforeIsLess(key, OperandOf(values, tier[0]));
      PositionOfName(values, tier[1..], key);
    }
  }

  function InsertEntry(values: seq<EncodedEntry>, tier: seq<SymbolEntry>, e: SymbolEntry): seq<SymbolEntry> {
    var u := UpperEntry(values, tier, OperandOf(values, e));
    tier[..u] + [e] + tier[u..]
  }

  lemma InsertedSymbol(values: seq<EncodedEntry>, tier: seq<SymbolEntry>, e: SymbolEntry)
    requires SymbolsNamed(tier)
    ensures SymbolRows(values, InsertEntry(values, tier, e))
         == Insert(SymbolRows(values, tier), RowOf(values, e))
  {
    hide SymbolRows, UpperEntry, Upper, AsString;
    var u := UpperEntry(values, tier, OperandOf(values, e));
    PositionOfName(values, tier, OperandOf(values, e));
    SymbolRowsConcat(values, tier[..u], [e]);
    SymbolRowsConcat(values, tier[..u] + [e], tier[u..]);
    SymbolRowsConcat(values, tier[..u], tier[u..]);
    assert tier == tier[..u] + tier[u..];
    OneRow(values, e);
  }

  lemma OneRow(values: seq<EncodedEntry>, e: SymbolEntry)
    ensures SymbolRows(values, [e]) == [RowOf(values, e)]
  {
    assert [e][1..] == [];
  }

  lemma InsertedSymbolFits(values: seq<EncodedEntry>, tier: seq<SymbolEntry>, e: SymbolEntry)
    requires SymbolsNamed(tier) && SymbolOffsetsBelow(tier, |values|)
    requires e.symbol != [] && e.dataOffset < |values|
    ensures SymbolsNamed(InsertEntry(values, tier, e)) && SymbolOffsetsBelow(InsertEntry(values, tier, e), |values|)
  {
  }

  function InsertFile(tier: seq<FileEntry>, e: FileEntry): seq<FileEntry> {
    var u := UpperName(tier, e.name);
    tier[..u] + [e] + tier[u..]
  }

  lemma InsertedName(values: seq<EncodedEntry>, tier: seq<FileEntry>, e: FileEntry)
    ensures NameRows(values, InsertFile(tier, e))
         == Insert(NameRows(values, tier), Row(e.name, ValueAt(values, e.dataOffset).value))
  {
    var u := UpperName(tier, e.name);
    UpperNameInRows(values, tier, e.name);
    NameRowsConcat(values, tier[..u], [e]);
    NameRowsConcat(values, tier[..u] + [e], tier[u..]);
    NameRowsConcat(values, tier[..u], tier[u..]);
    assert tier == tier[..u] + tier[u..];
    assert NameRows(values, [e]) == [Row(e.name, ValueAt(values, e.dataOffset).value)];
  }

  lemma {:induction false} UpperNameInRows(values: seq<EncodedEntry>, tier: seq<FileEntry>, name: string)
    ensures UpperName(tier, name) == Upper(NameRows(values, tier), name)
  {
    if tier != [] { UpperNameInRows(values, tier[1..], name); }
  }

  lemma InsertedNameFits(tier: seq<FileEntry>, e: FileEntry, n: nat)
    requires NameOffsetsBelow(tier, n) && e.dataOffset < n
    ensures NameOffsetsBelow(InsertFile(tier, e), n)
  {
  }

  lemma {:induction false} LowerNameInRows(values: seq<EncodedEntry>, tier: seq<FileEntry>, name: string)
    ensures LowerName(tier, name) == UpperBound(NameRows(values, tier), NotBelow(name))
  {
    if tier != [] { LowerNameInRows(values, tier[1..], name); }
  }

  function EntryBefore(values: seq<EncodedEntry>): (SymbolEntry, SymbolEntry) -> bool {
    (a: SymbolEntry, b: SymbolEntry) => Before(OperandOf(values, a), OperandOf(values, b))
  }

  function FileBefore(): (FileEntry, FileEntry) -> bool {
    (a: FileEntry, b: FileEntry) => Less(a.name, b.name)
  }

  lemma SymbolRowsConcat(values: seq<EncodedEntry>, a: seq<SymbolEntry>, b: seq<SymbolEntry>)
    ensures SymbolRows(values, a + b) == SymbolRows(values, a) + SymbolRows(values, b)
  {
    SymbolRowsAt(values, a);
    SymbolRowsAt(values, b);
    SymbolRowsAt(values, a + b);
  }

  lemma NameRowsConcat(values: seq<EncodedEntry>, a: seq<FileEntry>, b: seq<FileEntry>)
    ensures NameRows(values, a + b) == NameRows(values, a) + NameRows(values, b)
  {
    NameRowsAt(values, a);
    NameRowsAt(values, b);
    NameRowsAt(values, a + b);
  }

  lemma {:induction false} MergedSymbols(values: seq<EncodedEntry>, a: seq<SymbolEntry>, b: seq<SymbolEntry>)
    requires SymbolsNamed(a) && SymbolsNamed(b)
    ensures SymbolRows(values, Merge(a, b, EntryBefore(values)))
         == Merge(SymbolRows(values, a), SymbolRows(values, b), RowBefore())
  {
    if a != [] && b != [] {
      var ra, rb := SymbolRows(values, a), SymbolRows(values, b);
      assert ra[1..] == SymbolRows(values, a[1..]) && rb[1..] == SymbolRows(values, b[1..]);
      BeforeIsLess(OperandOf(values, b[0]), OperandOf(values, a[0]));
      if Before(OperandOf(values, b[0]), OperandOf(values, a[0])) {
        MergedSymbols(values, a, b[1..]);
        SymbolRowsConcat(values, [b[0]], Merge(a, b[1..], EntryBefore(values)));
        assert SymbolRows(values, [b[0]]) == [rb[0]];
      } else {
        MergedSymbols(values, a[1..], b);
        SymbolRowsConcat(values, [a[0]], Merge(a[1..], b, EntryBefore(values)));
        assert SymbolRows(values, [a[0]]) == [ra[0]];
      }
    }
  }

  lemma {:induction false} MergedNames(values: seq<EncodedEntry>, a: seq<FileEntry>, b: seq<FileEntry>)
    ensures NameRows(values, Merge(a, b, FileBefore())) == Merge(NameRows(values, a), NameRows(values, b), RowBefore())
  {
    if a != [] && b != [] {
      var ra, rb := NameRows(values, a), NameRows(values, b);
      assert ra[1..] == NameRows(values, a[1..]) && rb[1..] == NameRows(values, b[1..]);
      if Less(b[0].name, a[0].name) {
        MergedNames(values, a, b[1..]);
        NameRowsConcat(values, [b[0]], Merge(a, b[1..], FileBefore()));
        assert NameRows(values, [b[0]]) == [rb[0]];
      } else {
        MergedNames(values, a[1..], b);
        NameRowsConcat(values, [a[0]], Merge(a[1..], b, FileBefore()));
        assert NameRows(values, [a[0]]) == [ra[0]];
      }
    }
  }

  lemma FlattenOnRows(values: seq<EncodedEntry>, recent: seq<SymbolEntry>, flat: seq<SymbolEntry>,
                      merged: seq<SymbolEntry>)
    requires SymbolsNamed(recent) && SymbolsNamed(flat)
    requires SymbolOffsetsBelow(recent, |values|) && SymbolOffsetsBelow(flat, |values|)
    requires merged == Merge(recent, flat, EntryBefore(values))
    ensures RowTiers(values, [], merged) == Flatten(RowTiers(values, recent, flat))
    ensures SymbolsNamed(merged) && SymbolOffsetsBelow(merged, |values|)
  {
    MergedSymbols(values, recent, flat);
    MergeMembers(recent, flat, EntryBefore(values));
  }

  lemma FlattenNamesOnRows(values: seq<EncodedEntry>, recent: seq<FileEntry>, flat: seq<FileEntry>,
                           merged: seq<FileEntry>)
    requires NameOffsetsBelow(recent, |values|) && NameOffsetsBelow(flat, |values|)
    requires merged == Merge(recent, flat, FileBefore())
    ensures NameTiersOf(values, [], merged) == Flatten(NameTiersOf(values, recent, flat))
    ensures NameOffsetsBelow(merged, |values|)
  {
    MergedNames(values, recent, flat);
    MergeMembers(recent, flat, FileBefore());
  }

  /** Rows only read the slots their entries refer to. */
  lemma SameSymbolRows(values: seq<EncodedEntry>, values': seq<EncodedEntry>, tier: seq<SymbolEntry>)
    requires forall i :: 0 <= i < |tier| ==> ValueAt(values, tier[i].dataOffset) == ValueAt(values', tier[i].dataOffset)
    ensures SymbolRows(values, tier) == SymbolRows(values', tier)
  {
    SymbolRowsAt(values, tier);
    SymbolRowsAt(values', tier);
  }

  lemma SameNameRows(values: seq<EncodedEntry>, values': seq<EncodedEntry>, tier: seq<FileEntry>)
    requires forall i :: 0 <= i < |tier| ==> ValueAt(values, tier[i].dataOffset) == ValueAt(values', tier[i].dataOffset)
    ensures NameRows(values, tier) == NameRows(values', tier)
  {
    NameRowsAt(values, tier);
    NameRowsAt(values', tier);
  }

  // ----- the symbols of one file, stopping at the first refusal -----

  datatype SymbolsAdded = SymbolsAdded(ok: bool, tiers: Tiers<Value>)

  function Join(package: string, symbol: string): string {
    AsString(Entry(package, symbol))
  }

  /** One symbol of a file whose all_values_ slot is `file`. */
  function AddOne(t: Tiers<Value>, file: EncodedEntry, symbol: string): SymbolsAdded {
    var name := Join(file.package, symbol);
    SymbolsAdded(TiersAccept(t, name), TiersAdd(t, name, file.value))
  }

  /** The state AddFile reads and leaves: both pairs of tiers and the verdict. */
  datatype FileAdded = FileAdded(ok: bool, names: Tiers<Value>, symbols: Tiers<Value>)

  /** The package is checked first, then the file name is taken, then the symbols in order. */
  function AddFileRows(names: Tiers<Value>, symbols: Tiers<Value>, file: EncodedFile, value: Value): FileAdded {
    if !Valid(file.package) then FileAdded(false, names, symbols)
    else
      var named := NameTiers.AddName(names, file.name, value);
      if !named.ok then FileAdded(false, named.tiers, symbols)
      else
        var added := AddSymbols(symbols, EncodedEntry(value, file.package), file.symbols, 0);
        FileAdded(added.ok, named.tiers, added.tiers)
  }

  function AddSymbols(t: Tiers<Value>, file: EncodedEntry, symbols: seq<string>, from: nat): SymbolsAdded
    requires from <= |symbols|
    decreases |symbols| - from
  {
    if from == |symbols| then SymbolsAdded(true, t)
    else
      var one := AddOne(t, file, symbols[from]);
      if one.ok then AddSymbols(one.tiers, file, symbols, from + 1) else one
  }

  lemma JoinedValid(package: string, symbol: string)
    requires Valid(package)
    ensures Valid(Join(package, symbol)) <==> Valid(symbol)
  {
    var joined := Join(package, symbol);
    if package != [] {
      assert joined == package + "." + symbol;
      forall k | 0 <= k < |symbol|
        ensures symbol[k] == joined[|package| + 1 + k]
      {
      }
    }
  }

  /** The check of CheckForMutualSubsymbols, from the floor of the entry in one tier. */
  predicate TierClear(values: seq<EncodedEntry>, tier: seq<SymbolEntry>, e: SymbolEntry) {
    NeighboursClear(SymbolRows(values, tier), FloorEntry(values, tier, OperandOf(values, e)), NameOf(values, e))
  }

  /** The checks and the insertion of AddSymbol on entries are the ones of TwoTiers on rows. */
  lemma AddSymbolOnRows(values: seq<EncodedEntry>, recent: seq<SymbolEntry>, flat: seq<SymbolEntry>, e: SymbolEntry)
    requires SymbolsNamed(recent) && SymbolsNamed(flat)
    requires e.dataOffset < |values| && Valid(values[e.dataOffset].package)
    ensures AddOne(RowTiers(values, recent, flat), values[e.dataOffset], e.symbol) ==
            if Valid(e.symbol) && TierClear(values, recent, e) && TierClear(values, flat, e)
            then SymbolsAdded(true, RowTiers(values, InsertEntry(values, recent, e), flat))
            else SymbolsAdded(false, RowTiers(values, recent, flat))
  {
    hide SymbolRows, InsertEntry, TierClear, NeighboursClear, AsString;
    JoinedValid(values[e.dataOffset].package, e.symbol);
    TierClearOnRows(values, recent, e);
    TierClearOnRows(values, flat, e);
    InsertedSymbol(values, recent, e);
  }

  lemma TierClearOnRows(values: seq<EncodedEntry>, tier: seq<SymbolEntry>, e: SymbolEntry)
    requires SymbolsNamed(tier)
    ensures var rows, name := SymbolRows(values, tier), NameOf(values, e);
            TierClear(values, tier, e) <==> NeighboursClear(rows, FindLastLessOrEqual(rows, Above(name)), name)
  {
    hide SymbolRows, IsSubSymbol, UpperBound;
    PositionOfName(values, tier, OperandOf(values, e));
  }

  class DescriptorIndex {
    var allValues: seq<EncodedEntry>
    var byName: seq<FileEntry>
    var byNameFlat: seq<FileEntry>
    var bySymbol: seq<SymbolEntry>
    var bySymbolFlat: seq<SymbolEntry>

    /** Offsets point into all_values_, and no entry has an empty symbol: with one the comparator is not
        an order (SymbolCompare.Degenerate), so the ordered set would have no meaning. */
    ghost predicate Valid()
      reads this
    {
      && OffsetsBelow(|allValues|)
      && SymbolsNamed(bySymbol) && SymbolsNamed(bySymbolFlat)
    }

    ghost predicate OffsetsBelow(n: nat)
      reads this
    {
      && NameOffsetsBelow(byName, n) && NameOffsetsBelow(byNameFlat, n)
      && SymbolOffsetsBelow(bySymbol, n) && SymbolOffsetsBelow(bySymbolFlat, n)
    }

    ghost function Symbols(): Tiers<Value>
      reads this
    {
      RowTiers(allValues, bySymbol, bySymbolFlat)
    }

    ghost function Names(): Tiers<Value>
      reads this
    {
      NameTiersOf(allValues, byName, byNameFlat)
    }

    constructor ()
      ensures Valid() && Symbols() == Tiers([], []) && Names() == Tiers([], [])
    {
      allValues, byName, byNameFlat, bySymbol, bySymbolFlat := [], [], [], [], [];
    }

    /** CheckForMutualSubsymbols on one tier; `iter` starts at the floor of the entry's name. */
    method CheckForMutualSubsymbols(e: SymbolEntry, tier: seq<SymbolEntry>) returns (ok: bool)
      ensures ok == TierClear(allValues, tier, e)
    {
      SymbolRowsAt(allValues, tier);
      var symbolName := NameOf(allValues, e);
      var iter := FloorEntry(allValues, tier, OperandOf(allValues, e));
      if iter != |tier| {
        if IsSubSymbol(NameOf(allValues, tier[iter]), symbolName) {
          return false;
        }
        iter := iter + 1;
        if iter != |tier| && IsSubSymbol(symbolName, NameOf(allValues, tier[iter])) {
          return false;
        }
      }
      return true;
    }

    method AddSymbol(symbol: string) returns (ok: bool)
      requires Valid() && symbol != []
      requires allValues != [] && SymbolNames.Valid(allValues[|allValues| - 1].package)
      modifies this`bySymbol
      ensures Valid()
      ensures SymbolsAdded(ok, Symbols()) == AddOne(old(Symbols()), allValues[|allValues| - 1], symbol)
    {
      var entry := SymbolEntry(|allValues| - 1, symbol);
      ghost var goal := AddOne(Symbols(), allValues[|allValues| - 1], symbol);
      ok := CheckSymbol(entry);
      assert goal ==
             if ok then SymbolsAdded(true, RowTiers(allValues, InsertEntry(allValues, bySymbol, entry), bySymbolFlat))
                     else SymbolsAdded(false, Symbols()) by {
        AddSymbolOnRows(allValues, bySymbol, bySymbolFlat, entry);
      }
      if ok {
        InsertedSymbolFits(allValues, bySymbol, entry);
        bySymbol := InsertEntry(allValues, bySymbol, entry);
      }
    }

    /** The three checks of AddSymbol, in order: the symbol's bytes, the set tier, the flat tier. */
    method CheckSymbol(entry: SymbolEntry) returns (ok: bool)
      ensures ok == (SymbolNames.Valid(entry.symbol) &&
                     TierClear(allValues, bySymbol, entry) && TierClear(allValues, bySymbolFlat, entry))
    {
      ok := ValidateSymbolName(entry.symbol);
      if !ok {
        return;
      }
      ok := CheckForMutualSubsymbols(entry, bySymbol);
      if !ok {
        return;
      }
      ok := CheckForMutualSubsymbols(entry, bySymbolFlat);
    }

    /** InsertIfNotPresent(&by_name_) followed by the search of by_name_flat_. */
    method AddName(name: string) returns (ok: bool)
      requires Valid() && allValues != []
      modifies this`byName
      ensures Valid()
      ensures NameAdded(ok, Names()) == NameTiers.AddName(old(Names()), name, allValues[|allValues| - 1].value)
    {
      var present := ContainsName(byName, name);
      if present {
        return false;
      }
      var entry := FileEntry(|allValues| - 1, name);
      InsertedName(allValues, byName, entry);
      InsertedNameFits(byName, entry, |allValues|);
      byName := InsertFile(byName, entry);
      var inFlat := ContainsName(byNameFlat, name);
      return !inFlat;
    }

    /** The search in a tier of file names: whether some entry has this name. */
    method ContainsName(tier: seq<FileEntry>, name: string) returns (found: bool)
      ensures found == HasName(NameRows(allValues, tier), name)
    {
      NameRowsAt(allValues, tier);
      for i := 0 to |tier|
        invariant forall k :: 0 <= k < i ==> tier[k].name != name
      {
        if tier[i].name == name {
          assert NameRows(allValues, tier)[i].name == name;
          return true;
        }
      }
      return false;
    }

    method AddFile(file: EncodedFile, value: Value) returns (ok: bool)
      requires Valid() && forall i :: 0 <= i < |file.symbols| ==> file.symbols[i] != []
      modifies this
      ensures Valid()
      ensures FileAdded(ok, Names(), Symbols()) == AddFileRows(old(Names()), old(Symbols()), file, value)
    {
      ghost var names, symbols := Names(), Symbols();
      ok := BeginFile(file.package, value);
      if !ok {
        return;
      }
      ghost var named := NameTiers.AddName(names, file.name, value);
      ghost var added := AddSymbols(symbols, EncodedEntry(value, file.package), file.symbols, 0);
      assert AddFileRows(names, symbols, file, value) ==
             if named.ok then FileAdded(added.ok, named.tiers, added.tiers) else FileAdded(false, named.tiers, symbols);
      ok := AddName(file.name);
      assert named == NameAdded(ok, Names());
      if !ok {
        return;
      }
      ok := AddAllSymbols(file.symbols);
    }

    /** The start of AddFile: a slot for the value comes first, and keeps an empty package if the package is invalid. */
    method BeginFile(package: string, value: Value) returns (ok: bool)
      requires Valid()
      modifies this`allValues
      ensures Valid() && allValues != [] && ok == SymbolNames.Valid(package)
      ensures allValues[|allValues| - 1] == EncodedEntry(value, if ok then package else [])
      ensures Names() == old(Names()) && Symbols() == old(Symbols())
    {
      PushValue(EncodedEntry(value, []));
      ok := ValidateSymbolName(package);
      if ok {
        SetLastPackage(package);
      }
    }

    /** The symbol loops of AddFile: stop at the first refusal. */
    method AddAllSymbols(symbols: seq<string>) returns (ok: bool)
      requires Valid() && forall i :: 0 <= i < |symbols| ==> symbols[i] != []
      requires allValues != [] && SymbolNames.Valid(allValues[|allValues| - 1].package)
      modifies this`bySymbol
      ensures Valid()
      ensures SymbolsAdded(ok, Symbols()) == AddSymbols(old(Symbols()), allValues[|allValues| - 1], symbols, 0)
    {
      ghost var last := allValues[|allValues| - 1];
      ghost var goal := AddSymbols(Symbols(), last, symbols, 0);
      for i := 0 to |symbols|
        invariant Valid()
        invariant AddSymbols(Symbols(), last, symbols, i) == goal
      {
        ok := AddSymbol(symbols[i]);
        if !ok {
          return;
        }
      }
      return true;
    }

    /** all_values_.push_back: no entry refers to the new slot yet. */
    method PushValue(e: EncodedEntry)
      requires Valid()
      modifies this`allValues
      ensures Valid() && allValues == old(allValues) + [e] && OffsetsBelow(|allValues| - 1)
      ensures Names() == old(Names()) && Symbols() == old(Symbols())
    {
      ghost var before := allValues;
      allValues := allValues + [e];
      SameRows(before, |allValues| - 1);
    }

    method SetLastPackage(package: string)
      requires Valid() && allValues != [] && OffsetsBelow(|allValues| - 1)
      modifies this`allValues
      ensures Valid() && |allValues| == |old(allValues)|
      ensures allValues[|allValues| - 1] == EncodedEntry(old(allValues[|allValues| - 1].value), package)
      ensures Names() == old(Names()) && Symbols() == old(Symbols())
    {
      ghost var before := allValues;
      var last := |allValues| - 1;
      allValues := allValues[last := EncodedEntry(allValues[last].value, package)];
      SameRows(before, |allValues| - 1);
    }

    lemma SameRows(before: seq<EncodedEntry>, n: nat)
      requires OffsetsBelow(n) && n <= |before| && n <= |allValues| && before[..n] == allValues[..n]
      ensures Names() == Tiers(NameRows(before, byName), NameRows(before, byNameFlat))
      ensures Symbols() == Tiers(SymbolRows(before, bySymbol), SymbolRows(before, bySymbolFlat))
    {
      forall k | 0 <= k < n
        ensures ValueAt(before, k) == ValueAt(allValues, k)
      {
        assert before[..n][k] == allValues[..n][k];
      }
      SameNameRows(before, allValues, byName);
      SameNameRows(before, allValues, byNameFlat);
      SameSymbolRows(before, allValues, bySymbol);
      SameSymbolRows(before, allValues, bySymbolFlat);
    }

    /** Merge the set tiers into the flat tiers and clear them. */
    method EnsureFlat()
      requires Valid()
      modifies this`byName, this`byNameFlat, this`bySymbol, this`bySymbolFlat
      ensures Valid() && byName == [] && bySymbol == []
      ensures Names() == Flatten(old(Names())) && Symbols() == Flatten(old(Symbols()))
    {
      hide SymbolRows, NameRows, Merge;
      var names := MergeIntoFlat(byName, byNameFlat, FileBefore());
      var symbols := MergeIntoFlat(bySymbol, bySymbolFlat, EntryBefore(allValues));
      ghost var nameGoal, symbolGoal := Flatten(Names()), Flatten(Symbols());
      assert nameGoal == NameTiersOf(allValues, [], names) && NameOffsetsBelow(names, |allValues|) by {
        FlattenNamesOnRows(allValues, byName, byNameFlat, names);
      }
      assert symbolGoal == RowTiers(allValues, [], symbols) && SymbolOffsetsBelow(symbols, |allValues|)
             && SymbolsNamed(symbols) by {
        FlattenOnRows(allValues, bySymbol, bySymbolFlat, symbols);
      }
      byName, byNameFlat, bySymbol, bySymbolFlat := [], names, [], symbols;
    }

    method FindSymbol(name: string) returns (r: Option<Value>)
      requires Valid()
      modifies this`byName, this`byNameFlat, this`bySymbol, this`bySymbolFlat
      ensures Valid() && Names() == Flatten(old(Names())) && Symbols() == Flatten(old(Symbols()))
      ensures r == TiersFind(old(Symbols()), name)
    {
      EnsureFlat();
      r := FindSymbolOnlyFlat(name);
    }

    method FindSymbolOnlyFlat(name: string) returns (r: Option<Value>)
      requires Valid()
      ensures r == SymbolTable.FindSymbol(SymbolRows(allValues, bySymbolFlat), name)
    {
      PositionOfName(allValues, bySymbolFlat, Plain(name));
      SymbolRowsAt(allValues, bySymbolFlat);
      var iter := FloorEntry(allValues, bySymbolFlat, Plain(name));
      if iter != |bySymbolFlat| && IsSubSymbol(NameOf(allValues, bySymbolFlat[iter]), name) {
        return Some(ValueAt(allValues, bySymbolFlat[iter].dataOffset).value);
      }
      return None;
    }

    method FindFile(filename: string) returns (r: Option<Value>)
      requires Valid()
      modifies this`byName, this`byNameFlat, this`bySymbol, this`bySymbolFlat
      ensures Valid() && Names() == Flatten(old(Names())) && Symbols() == Flatten(old(Symbols()))
      ensures r == FindName(old(Names()), filename)
    {
      EnsureFlat();
      LowerNameInRows(allValues, byNameFlat, filename);
      NameRowsAt(allValues, byNameFlat);
      var it := LowerName(byNameFlat, filename);
      if it == |byNameFlat| || byNameFlat[it].name != filename {
        return None;
      }
      return Some(ValueAt(allValues, byNameFlat[it].dataOffset).value);
    }
  }

  lemma MergeMembers<T>(a: seq<T>, b: seq<T>, before: (T, T) -> bool)
    ensures forall i :: 0 <= i < |Merge(a, b, before)| ==> Merge(a, b, before)[i] in a || Merge(a, b, before)[i] in b
  {
    var m := Merge(a, b, before);
    forall i | 0 <= i < |m|
      ensures m[i] in a || m[i] in b
    {
      assert m[i] in multiset(m);
    }
  }

  /** std::merge into a new vector. */
  method MergeIntoFlat<T>(s: seq<T>, flat: seq<T>, before: (T, T) -> bool) returns (newFlat: seq<T>)
    ensures newFlat == Merge(s, flat, before)
  {
    if s == [] {
      return flat;
    }
    newFlat := [];
    var i, j := 0, 0;
    while i < |s| && j < |flat|
      invariant i <= |s| && j <= |flat|
      invariant newFlat + Merge(s[i..], flat[j..], before) == Merge(s, flat, before)
      decreases |s| - i + |flat| - j
    {
      if before(flat[j], s[i]) {
        MergeStep(newFlat, s, i, flat, j, before);
        newFlat := newFlat + [flat[j]];
        j := j + 1;
      } else {
        MergeStep(newFlat, s, i, flat, j, before);
        newFlat := newFlat + [s[i]];
        i := i + 1;
      }
    }
    assert Merge(s[i..], flat[j..], before) == s[i..] + flat[j..];
    newFlat := newFlat + (s[i..] + flat[j..]);
  }

  lemma MergeStep<T>(done: seq<T>, s: seq<T>, i: nat, flat: seq<T>, j: nat, before: (T, T) -> bool)
    requires i < |s| && j < |flat|
    ensures done + Merge(s[i..], flat[j..], before) ==
            if before(flat[j], s[i]) then done + [flat[j]] + Merge(s[i..], flat[j + 1..], before)
            else done + [s[i]] + Merge(s[i + 1..], flat[j..], before)
  {
    assert s[i..][1..] == s[i + 1..] && flat[j..][1..] == flat[j + 1..];
    Associate(done, [flat[j]], Merge(s[i..], flat[j + 1..], before));
    Associate(done, [s[i]], Merge(s[i + 1..], flat[j..], before));
  }
}
