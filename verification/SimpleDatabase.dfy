/**
 SimpleDescriptorDatabase and its DescriptorIndex: three tables that AddFile fills in
 place, stopping at the first conflict. A file descriptor stands for the pointer to the
 database's own copy of it.
 */
module SimpleDatabase {
  import opened Common
  import opened SymbolNames
  import opened SymbolTable

  datatype Field = Field(name: string, number: int, extendee: string)
  datatype Message = Message(name: string, nested: seq<Message>, extensions: seq<Field>)
  datatype File = File(name: string, package: Option<string>, messages: seq<Message>,
                       enums: seq<string>, extensions: seq<Field>, services: seq<string>)

  type ExtensionKey = (string, int)

  /** The state of an index: by_name_, by_symbol_ and by_extension_. */
  datatype Index = Index(byName: map<string, File>, bySymbol: seq<Row<File>>, byExtension: map<ExtensionKey, File>)

  // ----- the elementary additions that one file stands for, in order -----

  datatype Step = Symbol(name: string) | Extension(field: Field)

  datatype Outcome = Outcome(ok: bool, index: Index)

  function Path(file: File): string {
    if file.package.None? || file.package.value == [] then [] else file.package.value + "."
  }

  function ExtensionSteps(fields: seq<Field>): seq<Step> {
    if fields == [] then [] else [Extension(fields[0])] + ExtensionSteps(fields[1..])
  }

  function NestedSteps(m: Message): seq<Step>
    decreases m, 1
  {
    AllNestedSteps(m, 0) + ExtensionSteps(m.extensions)
  }

  function AllNestedSteps(m: Message, from: nat): seq<Step>
    requires from <= |m.nested|
    decreases m, 0, |m.nested| - from
  {
    if from == |m.nested| then [] else NestedSteps(m.nested[from]) + AllNestedSteps(m, from + 1)
  }

  function MessageSteps(path: string, messages: seq<Message>): seq<Step> {
    if messages == [] then []
    else [Symbol(path + messages[0].name)] + NestedSteps(messages[0]) + MessageSteps(path, messages[1..])
  }

  function NameSteps(path: string, names: seq<string>): seq<Step> {
    if names == [] then [] else [Symbol(path + names[0])] + NameSteps(path, names[1..])
  }

  function FileExtensionSteps(path: string, fields: seq<Field>): seq<Step> {
    if fields == [] then []
    else [Symbol(path + fields[0].name), Extension(fields[0])] + FileExtensionSteps(path, fields[1..])
  }

  function FileSteps(file: File): seq<Step> {
    MessageSteps(Path(file), file.messages) + (NameSteps(Path(file), file.enums) +
    (FileExtensionSteps(Path(file), file.extensions) + NameSteps(Path(file), file.services)))
  }

  predicate FullyQualified(field: Field) {
    field.extendee != [] && field.extendee[0] == '.'
  }

  function ExtensionKeyOf(field: Field): ExtensionKey
    requires FullyQualified(field)
  {
    (field.extendee[1..], field.number)
  }

  function Apply(ix: Index, s: Step, value: File): Outcome {
    match s
    case Symbol(name) =>
      Outcome(Accepts(ix.bySymbol, name), ix.(bySymbol := SymbolTable.AddSymbol(ix.bySymbol, name, value)))
    case Extension(field) =>
      if !FullyQualified(field) then Outcome(true, ix)
      else if ExtensionKeyOf(field) in ix.byExtension then Outcome(false, ix)
      else Outcome(true, ix.(byExtension := ix.byExtension[ExtensionKeyOf(field) := value]))
  }

  function Run(ix: Index, steps: seq<Step>, value: File): Outcome
    decreases |steps|
  {
    if steps == [] then Outcome(true, ix)
    else
      var o := Apply(ix, steps[0], value);
      if o.ok then Run(o.index, steps[1..], value) else o
  }

  function FileAdded(ix: Index, file: File): Outcome {
    if file.name in ix.byName then Outcome(false, ix)
    else Run(ix.(byName := ix.byName[file.name := file]), FileSteps(file), file)
  }

  lemma {:induction false} RunConcat(ix: Index, a: seq<Step>, b: seq<Step>, value: File)
    ensures Run(ix, a + b, value) ==
            if Run(ix, a, value).ok then Run(Run(ix, a, value).index, b, value) else Run(ix, a, value)
    decreases |a|
  {
    if a == [] {
      assert a + b == b;
    } else {
      assert (a + b)[1..] == a[1..] + b;
      RunConcat(Apply(ix, a[0], value).index, a[1..], b, value);
    }
  }

  // ----- the index object -----

  class DescriptorIndex {
    var byName: map<string, File>
    var bySymbol: seq<Row<File>>
    var byExtension: map<ExtensionKey, File>

    constructor ()
      ensures View() == Index(map[], [], map[])
    {
      byName, bySymbol, byExtension := map[], [], map[];
    }

    function View(): Index
      reads this
    {
      Index(byName, bySymbol, byExtension)
    }

    method AddSymbol(name: string, value: File) returns (ok: bool)
      modifies this
      ensures Outcome(ok, View()) == Apply(old(View()), Symbol(name), value)
    {
      var valid := ValidateSymbolName(name);
      if !valid {
        return false;
      }
      var iter := FindLastLessOrEqual(bySymbol, Above(name));
      if iter == |bySymbol| {
        bySymbol := Insert(bySymbol, Row(name, value));
        return true;
      }
      if IsSubSymbol(bySymbol[iter].name, name) {
        return false;
      }
      iter := iter + 1;
      if iter != |bySymbol| && IsSubSymbol(name, bySymbol[iter].name) {
        return false;
      }
      bySymbol := Insert(bySymbol, Row(name, value));
      return true;
    }

    method AddExtension(field: Field, value: File) returns (ok: bool)
      modifies this
      ensures Outcome(ok, View()) == Apply(old(View()), Extension(field), value)
    {
      if field.extendee != [] && field.extendee[0] == '.' {
        var key := (field.extendee[1..], field.number);
        if key in byExtension {
          return false;
        }
        byExtension := byExtension[key := value];
      }
      return true;
    }

    method AddNestedExtensions(m: Message, value: File) returns (ok: bool)
      modifies this
      ensures Outcome(ok, View()) == Run(old(View()), NestedSteps(m), value)
      decreases m
    {
      ghost var goal := Run(View(), NestedSteps(m), value);
      for i := 0 to |m.nested|
        invariant Run(View(), AllNestedSteps(m, i) + ExtensionSteps(m.extensions), value) == goal
      {
        var rest := AllNestedSteps(m, i + 1) + ExtensionSteps(m.extensions);
        assert AllNestedSteps(m, i) + ExtensionSteps(m.extensions) == NestedSteps(m.nested[i]) + rest;
        RunConcat(View(), NestedSteps(m.nested[i]), rest, value);
        var added := AddNestedExtensions(m.nested[i], value);
        if !added { return false; }
      }
      assert [] + ExtensionSteps(m.extensions) == ExtensionSteps(m.extensions);
      for i := 0 to |m.extensions|
        invariant Run(View(), ExtensionSteps(m.extensions[i..]), value) == goal
      {
        var added := AddExtension(m.extensions[i], value);
        if !added { return false; }
      }
      return true;
    }

    method AddMessages(path: string, messages: seq<Message>, value: File) returns (ok: bool)
      modifies this
      ensures Outcome(ok, View()) == Run(old(View()), MessageSteps(path, messages), value)
    {
      ghost var goal := Run(View(), MessageSteps(path, messages), value);
      for i := 0 to |messages|
        invariant Run(View(), MessageSteps(path, messages[i..]), value) == goal
      {
        ghost var nested := NestedSteps(messages[i]);
        ghost var rest := MessageSteps(path, messages[i + 1..]);
        assert MessageSteps(path, messages[i..]) == [Symbol(path + messages[i].name)] + (nested + rest);
        RunConcat(View(), [Symbol(path + messages[i].name)], nested + rest, value);
        var added := AddSymbol(path + messages[i].name, value);
        if !added { return false; }
        RunConcat(View(), nested, rest, value);
        added := AddNestedExtensions(messages[i], value);
        if !added { return false; }
      }
      return true;
    }

    method AddNames(path: string, names: seq<string>, value: File) returns (ok: bool)
      modifies this
      ensures Outcome(ok, View()) == Run(old(View()), NameSteps(path, names), value)
    {
      ghost var goal := Run(View(), NameSteps(path, names), value);
      for i := 0 to |names|
        invariant Run(View(), NameSteps(path, names[i..]), value) == goal
      {
        var added := AddSymbol(path + names[i], value);
        if !added { return false; }
      }
      return true;
    }

    method AddFileExtensions(path: string, fields: seq<Field>, value: File) returns (ok: bool)
      modifies this
      ensures Outcome(ok, View()) == Run(old(View()), FileExtensionSteps(path, fields), value)
    {
      ghost var goal := Run(View(), FileExtensionSteps(path, fields), value);
      for i := 0 to |fields|
        invariant Run(View(), FileExtensionSteps(path, fields[i..]), value) == goal
      {
        ghost var rest := FileExtensionSteps(path, fields[i + 1..]);
        assert FileExtensionSteps(path, fields[i..])
               == [Symbol(path + fields[i].name)] + ([Extension(fields[i])] + rest);
        RunConcat(View(), [Symbol(path + fields[i].name)], [Extension(fields[i])] + rest, value);
        var added := AddSymbol(path + fields[i].name, value);
        if !added { return false; }
        RunConcat(View(), [Extension(fields[i])], rest, value);
        added := AddExtension(fields[i], value);
        if !added { return false; }
      }
      return true;
    }

    method AddFile(file: File) returns (ok: bool)
      modifies this
      ensures Outcome(ok, View()) == FileAdded(old(View()), file)
      ensures old(Consistent(View())) ==> Consistent(View()) && AddedAsDeclared(old(View()), ok, View(), file)
    {
      if Consistent(View()) {
        FileAddedKeeps(View(), file);
        FileAddedDoesAll(View(), file);
      }
      hide Consistent, AddedAsDeclared;
      if file.name in byName {
        return false;
      }
      byName := byName[file.name := file];
      var path := if file.package.Some? then file.package.value else [];
      if path != [] { path := path + "."; }

      ghost var messages, enums := MessageSteps(path, file.messages), NameSteps(path, file.enums);
      ghost var extensions, services := FileExtensionSteps(path, file.extensions), NameSteps(path, file.services);
      RunConcat(View(), messages, enums + (extensions + services), file);
      ok := AddMessages(path, file.messages, file);
      if !ok { return; }
      RunConcat(View(), enums, extensions + services, file);
      ok := AddNames(path, file.enums, file);
      if !ok { return; }
      RunConcat(View(), extensions, services, file);
      ok := AddFileExtensions(path, file.extensions, file);
      if !ok { return; }
      ok := AddNames(path, file.services, file);
    }

    function FindFile(filename: string): Option<File>
      reads this
    {
      if filename in byName then Some(byName[filename]) else None
    }

    function FindSymbol(name: string): Option<File>
      reads this
    {
      SymbolTable.FindSymbol(bySymbol, name)
    }

    function FindExtension(containingType: string, number: int): Option<File>
      reads this
    {
      if (containingType, number) in byExtension then Some(byExtension[(containingType, number)]) else None
    }
  }

  // ----- what every addition keeps -----

  /** Symbols sorted and valid, and every file reachable by symbol or extension is the one bound to its own name. */
  ghost predicate Consistent(ix: Index) {
    && Sorted(ix.bySymbol) && AllValid(ix.bySymbol)
    && (forall n :: n in ix.byName ==> ix.byName[n].name == n)
    && (forall r :: r in ix.bySymbol ==> Bound(ix, r.value))
    && (forall k :: k in ix.byExtension ==> Bound(ix, ix.byExtension[k]))
  }

  ghost predicate Bound(ix: Index, file: File) {
    file.name in ix.byName && ix.byName[file.name] == file
  }

  /** `b` holds everything `a` holds, under the same keys. */
  ghost predicate Extends(a: Index, b: Index) {
    && (forall n :: n in a.byName ==> n in b.byName && b.byName[n] == a.byName[n])
    && (forall r :: r in a.bySymbol ==> r in b.bySymbol)
    && (forall k :: k in a.byExtension ==> k in b.byExtension && b.byExtension[k] == a.byExtension[k])
  }

  lemma ApplyKeeps(ix: Index, s: Step, value: File)
    requires Consistent(ix) && Bound(ix, value)
    ensures var o := Apply(ix, s, value);
            Consistent(o.index) && Extends(ix, o.index) && Bound(o.index, value)
  {
    if s.Symbol? && Accepts(ix.bySymbol, s.name) {
      AddKeepsSorted(ix.bySymbol, s.name, value);
      InsertContents(ix.bySymbol, Row(s.name, value));
    }
  }

  lemma {:induction false} RunKeeps(ix: Index, steps: seq<Step>, value: File)
    requires Consistent(ix) && Bound(ix, value)
    ensures var o := Run(ix, steps, value);
            Consistent(o.index) && Extends(ix, o.index) && Bound(o.index, value)
    decreases |steps|
  {
    if steps != [] {
      ApplyKeeps(ix, steps[0], value);
      RunKeeps(Apply(ix, steps[0], value).index, steps[1..], value);
    }
  }

  /** Whether it succeeds or stops half way, adding a file only extends the tables and never rebinds a key. */
  lemma FileAddedKeeps(ix: Index, file: File)
    requires Consistent(ix)
    ensures var o := FileAdded(ix, file);
            Consistent(o.index) && Extends(ix, o.index)
  {
    if file.name !in ix.byName {
      RunKeeps(ix.(byName := ix.byName[file.name := file]), FileSteps(file), file);
    }
  }

  function AddFiles(ix: Index, files: seq<File>): Index
    decreases |files|
  {
    if files == [] then ix else AddFiles(FileAdded(ix, files[0]).index, files[1..])
  }

  lemma {:induction false} AddFilesKeeps(ix: Index, files: seq<File>)
    requires Consistent(ix)
    ensures Consistent(AddFiles(ix, files)) && Extends(ix, AddFiles(ix, files))
    decreases |files|
  {
    if files != [] {
      FileAddedKeeps(ix, files[0]);
      AddFilesKeeps(FileAdded(ix, files[0]).index, files[1..]);
    }
  }

  // ----- what a file declares, read off its fields -----

  /** The qualified form of a name declared at the top level of the file. */
  predicate IsQualified(file: File, name: string, symbol: string) {
    if file.package.Some? && file.package.value != "" then symbol == file.package.value + "." + name
    else symbol == name
  }

  /** A name at the top level: of a message, an enum, an extension or a service. */
  ghost predicate NamedAtTop(file: File, name: string) {
    || (exists m :: m in file.messages && m.name == name)
    || name in file.enums
    || (exists f :: f in file.extensions && f.name == name)
    || name in file.services
  }

  ghost predicate DeclaresSymbol(file: File, symbol: string) {
    exists name :: NamedAtTop(file, name) && IsQualified(file, name, symbol)
  }

  /** An extension inside a message, at any depth. */
  ghost predicate ExtensionWithin(m: Message, f: Field)
    decreases m
  {
    f in m.extensions || exists i :: 0 <= i < |m.nested| && ExtensionWithin(m.nested[i], f)
  }

  ghost predicate WithinOne(messages: seq<Message>, f: Field) {
    exists m :: m in messages && ExtensionWithin(m, f)
  }

  ghost predicate DeclaresExtension(file: File, f: Field) {
    f in file.extensions || WithinOne(file.messages, f)
  }

  /** An extension with a qualified extendee stands under the extendee without its dot, and under its number. */
  ghost predicate DeclaresKey(file: File, key: ExtensionKey) {
    exists f :: DeclaresExtension(file, f) && f.extendee == "." + key.0 && f.number == key.1
  }

  /** Everything the file declares is bound to it. */
  ghost predicate AllBound(ix: Index, file: File) {
    && Bound(ix, file)
    && (forall symbol :: DeclaresSymbol(file, symbol) ==> Row(symbol, file) in ix.bySymbol)
    && (forall key :: DeclaresKey(file, key) ==> key in ix.byExtension && ix.byExtension[key] == file)
  }

  /** What is new in `b` is the file's name or something it declares, and is bound to it. */
  ghost predicate OnlyDeclared(a: Index, b: Index, file: File) {
    && (forall n :: n in b.byName && n !in a.byName ==> n == file.name && b.byName[n] == file)
    && (forall r :: r in b.bySymbol && r !in a.bySymbol ==> DeclaresSymbol(file, r.name) && r.value == file)
    && (forall k :: k in b.byExtension && k !in a.byExtension ==> DeclaresKey(file, k) && b.byExtension[k] == file)
  }

  /** What stops an addition: something declared is no valid name, meets a related symbol, or has its key taken. */
  ghost predicate Stopped(ix: Index, file: File) {
    || (exists symbol :: DeclaresSymbol(file, symbol) && !(Valid(symbol) && !Conflicts(ix.bySymbol, symbol)))
    || (exists key :: DeclaresKey(file, key) && key in ix.byExtension)
  }

  lemma {:induction false} ExtensionStepsAre(fields: seq<Field>, s: Step)
    ensures s in ExtensionSteps(fields) <==> s.Extension? && s.field in fields
  {
    if fields != [] {
      ExtensionStepsAre(fields[1..], s);
      assert fields == [fields[0]] + fields[1..];
    }
  }

  lemma {:induction false} NestedStepsAre(m: Message, s: Step)
    ensures s in NestedSteps(m) <==> s.Extension? && ExtensionWithin(m, s.field)
    decreases m, 1
  {
    AllNestedStepsAre(m, 0, s);
    ExtensionStepsAre(m.extensions, s);
  }

  lemma {:induction false} AllNestedStepsAre(m: Message, from: nat, s: Step)
    requires from <= |m.nested|
    ensures s in AllNestedSteps(m, from) <==>
            s.Extension? && exists i :: from <= i < |m.nested| && ExtensionWithin(m.nested[i], s.field)
    decreases m, 0, |m.nested| - from
  {
    if from < |m.nested| {
      NestedStepsAre(m.nested[from], s);
      AllNestedStepsAre(m, from + 1, s);
    }
  }

  lemma {:induction false} MessageStepsAre(path: string, messages: seq<Message>, s: Step)
    ensures s in MessageSteps(path, messages) <==>
            if s.Symbol? then exists m :: m in messages && path + m.name == s.name else WithinOne(messages, s.field)
  {
    if messages != [] {
      NestedStepsAre(messages[0], s);
      MessageStepsAre(path, messages[1..], s);
      assert messages == [messages[0]] + messages[1..];
    }
  }

  lemma {:induction false} NameStepsAre(path: string, names: seq<string>, s: Step)
    ensures s in NameSteps(path, names) <==> s.Symbol? && exists n :: n in names && path + n == s.name
  {
    if names != [] {
      NameStepsAre(path, names[1..], s);
      assert names == [names[0]] + names[1..];
    }
  }

  lemma {:induction false} FileExtensionStepsAre(path: string, fields: seq<Field>, s: Step)
    ensures s in FileExtensionSteps(path, fields) <==>
            if s.Symbol? then exists f :: f in fields && path + f.name == s.name else s.field in fields
  {
    if fields != [] {
      FileExtensionStepsAre(path, fields[1..], s);
      assert fields == [fields[0]] + fields[1..];
    }
  }

  /** The elementary additions of a file are its declarations, all of them and nothing else. */
  lemma FileStepsAre(file: File, s: Step)
    ensures s in FileSteps(file) <==>
            if s.Symbol? then DeclaresSymbol(file, s.name) else DeclaresExtension(file, s.field)
  {
    var path := Path(file);
    MessageStepsAre(path, file.messages, s);
    NameStepsAre(path, file.enums, s);
    FileExtensionStepsAre(path, file.extensions, s);
    NameStepsAre(path, file.services, s);
    if s.Symbol? {
      forall name
        ensures IsQualified(file, name, s.name) <==> path + name == s.name
      {
      }
    }
  }

  // ----- a successful addition indexes everything the file declares -----

  ghost predicate Done(ix: Index, s: Step, value: File) {
    match s
    case Symbol(name) => Row(name, value) in ix.bySymbol
    case Extension(field) => FullyQualified(field) ==>
      ExtensionKeyOf(field) in ix.byExtension && ix.byExtension[ExtensionKeyOf(field)] == value
  }

  lemma {:induction false} RunDoesAll(ix: Index, steps: seq<Step>, value: File, k: nat)
    requires Consistent(ix) && Bound(ix, value)
    requires Run(ix, steps, value).ok && k < |steps|
    ensures Done(Run(ix, steps, value).index, steps[k], value)
    decreases |steps|
  {
    var o := Apply(ix, steps[0], value);
    ApplyKeeps(ix, steps[0], value);
    if k == 0 {
      if steps[0].Symbol? { InsertContents(ix.bySymbol, Row(steps[0].name, value)); }
      RunKeeps(o.index, steps[1..], value);
    } else {
      RunDoesAll(o.index, steps[1..], value, k - 1);
    }
  }

  /** What a run adds comes from its steps, and a run that fails stopped at a step that the index it left refuses. */
  lemma {:induction false} RunAddsOnly(ix: Index, steps: seq<Step>, file: File)
    requires forall s :: s in steps ==> s in FileSteps(file)
    ensures var o := Run(ix, steps, file);
            && o.index.byName == ix.byName && Extends(ix, o.index) && OnlyDeclared(ix, o.index, file)
            && (!o.ok ==> Stopped(o.index, file))
    decreases |steps|
  {
    if steps != [] {
      var s, o := steps[0], Apply(ix, steps[0], file);
      FileStepsAre(file, s);
      ApplyAddsOnly(ix, s, file);
      if o.ok { RunAddsOnly(o.index, steps[1..], file); }
    }
  }

  lemma ApplyAddsOnly(ix: Index, s: Step, file: File)
    requires if s.Symbol? then DeclaresSymbol(file, s.name) else DeclaresExtension(file, s.field)
    ensures var o := Apply(ix, s, file);
            && o.index.byName == ix.byName && Extends(ix, o.index) && OnlyDeclared(ix, o.index, file)
            && (!o.ok ==> o.index == ix && Stopped(ix, file))
  {
    match s
    case Symbol(name) =>
      if Accepts(ix.bySymbol, name) {
        InsertContents(ix.bySymbol, Row(name, file));
      } else if Valid(name) && !Conflicts(ix.bySymbol, name) {
        NoConflictIsAccepted(ix.bySymbol, name);
      }
    case Extension(field) =>
      if FullyQualified(field) {
        var key := ExtensionKeyOf(field);
        assert field.extendee == "." + key.0;
        assert DeclaresKey(file, key);
      }
  }

  /**
   What adding a file does, in terms of its own fields: on success everything it declares is bound to it; in any case
   what is new was declared by it, and a new name is bound; and it fails only for a name that is taken or a
   declaration that cannot be added.
   */
  ghost predicate AddedAsDeclared(ix: Index, ok: bool, ix': Index, file: File) {
    && (ok ==> file.name !in ix.byName && AllBound(ix', file))
    && OnlyDeclared(ix, ix', file)
    && (file.name !in ix.byName ==> Bound(ix', file))
    && (!ok ==> file.name in ix.byName || Stopped(ix', file))
  }

  lemma FileAddedDoesAll(ix: Index, file: File)
    requires Consistent(ix)
    ensures var o := FileAdded(ix, file);
            AddedAsDeclared(ix, o.ok, o.index, file)
  {
    if file.name !in ix.byName {
      var named := ix.(byName := ix.byName[file.name := file]);
      RunAddsOnly(named, FileSteps(file), file);
      if FileAdded(ix, file).ok { AllAdded(named, file); }
    }
  }

  lemma AllAdded(named: Index, file: File)
    requires Consistent(named) && Bound(named, file) && Run(named, FileSteps(file), file).ok
    ensures AllBound(Run(named, FileSteps(file), file).index, file)
  {
    var steps := FileSteps(file);
    var after := Run(named, steps, file).index;
    RunKeeps(named, steps, file);
    forall symbol | DeclaresSymbol(file, symbol)
      ensures Row(symbol, file) in after.bySymbol
    {
      FileStepsAre(file, Symbol(symbol));
      var k :| 0 <= k < |steps| && steps[k] == Symbol(symbol);
      RunDoesAll(named, steps, file, k);
    }
    forall key | DeclaresKey(file, key)
      ensures key in after.byExtension && after.byExtension[key] == file
    {
      var f :| DeclaresExtension(file, f) && f.extendee == "." + key.0 && f.number == key.1;
      FileStepsAre(file, Extension(f));
      var k :| 0 <= k < |steps| && steps[k] == Extension(f);
      RunDoesAll(named, steps, file, k);
      assert ExtensionKeyOf(f) == key;
    }
  }

  // ----- the prefix-free invariant over whole runs of files -----

  /** No symbol the run gets to falls into the blind spot of the table it meets. */
  ghost predicate StepsClear(ix: Index, steps: seq<Step>, value: File)
    decreases |steps|
  {
    steps == [] ||
    ((steps[0].Symbol? && Valid(steps[0].name) ==> !Overlooks(ix.bySymbol, steps[0].name)) &&
     (Apply(ix, steps[0], value).ok ==> StepsClear(Apply(ix, steps[0], value).index, steps[1..], value)))
  }

  ghost predicate FileClear(ix: Index, file: File) {
    file.name in ix.byName ||
    StepsClear(ix.(byName := ix.byName[file.name := file]), FileSteps(file), file)
  }

  ghost predicate FilesClear(ix: Index, files: seq<File>)
    decreases |files|
  {
    files == [] || (FileClear(ix, files[0]) && FilesClear(FileAdded(ix, files[0]).index, files[1..]))
  }

  lemma {:induction false} StepsPrefixFreeIff(ix: Index, steps: seq<Step>, value: File)
    requires Consistent(ix) && Bound(ix, value)
    ensures PrefixFree(ix.bySymbol) ==>
              (PrefixFree(Run(ix, steps, value).index.bySymbol) <==> StepsClear(ix, steps, value))
    ensures !PrefixFree(ix.bySymbol) ==> !PrefixFree(Run(ix, steps, value).index.bySymbol)
    decreases |steps|
  {
    if steps != [] {
      var s, o := steps[0], Apply(ix, steps[0], value);
      ApplyKeeps(ix, s, value);
      if s.Symbol? {
        if PrefixFree(ix.bySymbol) {
          AddKeepsPrefixFree(ix.bySymbol, s.name, value);
          if Valid(s.name) && Overlooks(ix.bySymbol, s.name) { OverlookedIsAccepted(ix.bySymbol, s.name); }
        } else {
          AddKeepsBroken(ix.bySymbol, s.name, value);
        }
      }
      StepsPrefixFreeIff(o.index, steps[1..], value);
    }
  }

  /** After any run of added files, failed ones included, the documented map invariant holds
      iff no symbol of the run was overlooked. */
  lemma {:induction false} FilesPrefixFreeIff(ix: Index, files: seq<File>)
    requires Consistent(ix)
    ensures PrefixFree(ix.bySymbol) ==> (PrefixFree(AddFiles(ix, files).bySymbol) <==> FilesClear(ix, files))
    ensures !PrefixFree(ix.bySymbol) ==> !PrefixFree(AddFiles(ix, files).bySymbol)
    decreases |files|
  {
    if files != [] {
      FileAddedKeeps(ix, files[0]);
      if files[0].name !in ix.byName {
        StepsPrefixFreeIff(ix.(byName := ix.byName[files[0].name := files[0]]), FileSteps(files[0]), files[0]);
      }
      FilesPrefixFreeIff(FileAdded(ix, files[0]).index, files[1..]);
    }
  }

  const EMPTY := Index(map[], [], map[])

  lemma {:induction false} AddFilesSplit(ix: Index, files: seq<File>, k: nat)
    requires k < |files|
    ensures AddFiles(ix, files) == AddFiles(FileAdded(AddFiles(ix, files[..k]), files[k]).index, files[k + 1..])
    decreases k
  {
    if k == 0 {
      assert files[..0] == [];
    } else {
      AddFilesSplit(FileAdded(ix, files[0]).index, files[1..], k - 1);
      assert files[..k][1..] == files[1..][..k - 1];
      assert files[1..][k..] == files[k + 1..];
    }
  }

  /** A file that was added successfully stays bound to all it declares, whatever was added before or after,
      successfully or not. */
  lemma AddedStaysBound(files: seq<File>, k: nat)
    requires k < |files| && FileAdded(AddFiles(EMPTY, files[..k]), files[k]).ok
    ensures AllBound(AddFiles(EMPTY, files), files[k])
  {
    var before, final := AddFiles(EMPTY, files[..k]), AddFiles(EMPTY, files);
    AddFilesKeeps(EMPTY, files[..k]);
    FileAddedDoesAll(before, files[k]);
    FileAddedKeeps(before, files[k]);
    AddFilesKeeps(FileAdded(before, files[k]).index, files[k + 1..]);
    AddFilesSplit(EMPTY, files, k);
  }

  /**
   The promise of SimpleDescriptorDatabase: in a run from the empty database without overlooked
   symbols, once a file that declares `symbol` was added successfully, every query equal to the symbol
   or below it finds that file, whatever was added before or after, successfully or not.
   */
  lemma DeclaredSymbolFound(files: seq<File>, k: nat, symbol: string, query: string)
    requires FilesClear(EMPTY, files)
    requires k < |files| && FileAdded(AddFiles(EMPTY, files[..k]), files[k]).ok
    requires DeclaresSymbol(files[k], symbol) && IsSubSymbol(symbol, query)
    ensures SymbolTable.FindSymbol(AddFiles(EMPTY, files).bySymbol, query) == Some(files[k])
  {
    var final := AddFiles(EMPTY, files);
    AddedStaysBound(files, k);
    assert Row(symbol, files[k]) in final.bySymbol;
    var i :| 0 <= i < |final.bySymbol| && final.bySymbol[i] == Row(symbol, files[k]);
    AddFilesKeeps(EMPTY, files);
    FilesPrefixFreeIff(EMPTY, files);
    FindSymbolExact(final.bySymbol, query);
    assert Matches(final.bySymbol, i, query);
  }
}
