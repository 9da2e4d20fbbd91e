/** MergedDescriptorDatabase over a list of simple databases. */
module MergedDatabase {
  import opened Common
  import opened SymbolTable
  import opened SimpleDatabase

  /** What a source answers to a question by symbol or by extension. */
  datatype Question = BySymbol(symbol: string) | ByExtension(containingType: string, number: int)

  function Answer(ix: Index, q: Question): Option<File> {
    match q
    case BySymbol(symbol) => SymbolTable.FindSymbol(ix.bySymbol, symbol)
    case ByExtension(containingType, number) =>
      if (containingType, number) in ix.byExtension then Some(ix.byExtension[(containingType, number)]) else None
  }

  /** The first source that defines the file name wins. */
  function FileNamed(views: seq<Index>, filename: string): Option<File> {
    if views == [] then None
    else if filename in views[0].byName then Some(views[0].byName[filename])
    else FileNamed(views[1..], filename)
  }

  ghost predicate FirstToAnswer(views: seq<Index>, q: Question, i: int) {
    0 <= i < |views| && Answer(views[i], q).Some? && forall j :: 0 <= j < i ==> Answer(views[j], q).None?
  }

  /** An earlier source defines a file of that name, so the later one is hidden. */
  ghost predicate Hidden(views: seq<Index>, filename: string, i: int) {
    exists j :: 0 <= j < i && j < |views| && filename in views[j].byName
  }

  class MergedDescriptorDatabase {
    const sources: seq<DescriptorIndex>

    constructor (sources: seq<DescriptorIndex>)
      ensures this.sources == sources
    {
      this.sources := sources;
    }

    ghost function Views(): (views: seq<Index>)
      reads sources
      ensures |views| == |sources| && forall i :: 0 <= i < |sources| ==> views[i] == sources[i].View()
    {
      seq(|sources|, i requires 0 <= i < |sources| reads sources => sources[i].View())
    }

    method FindFileByName(filename: string) returns (r: Option<File>)
      ensures r == FileNamed(Views(), filename)
    {
      for i := 0 to |sources|
        invariant FileNamed(Views(), filename) == FileNamed(Views()[i..], filename)
      {
        r := sources[i].FindFile(filename);
        if r.Some? { return; }
      }
      return None;
    }

    method FindFileContainingSymbol(symbol: string) returns (r: Option<File>)
      ensures forall i :: FirstToAnswer(Views(), BySymbol(symbol), i) ==>
                var found := Answer(Views()[i], BySymbol(symbol));
                r == if Hidden(Views(), found.value.name, i) then None else found
      ensures r.Some? ==> exists i :: FirstToAnswer(Views(), BySymbol(symbol), i)
    {
      for i := 0 to |sources|
        invariant forall j :: 0 <= j < i ==> Answer(Views()[j], BySymbol(symbol)).None?
      {
        var output := sources[i].FindSymbol(symbol);
        if output.Some? {
          assert FirstToAnswer(Views(), BySymbol(symbol), i);
          for j := 0 to i
            invariant forall k :: 0 <= k < j ==> output.value.name !in Views()[k].byName
          {
            var temp := sources[j].FindFile(output.value.name);
            if temp.Some? { return None; }
          }
          return output;
        }
      }
      return None;
    }

    method FindFileContainingExtension(containingType: string, number: int) returns (r: Option<File>)
      ensures forall i :: FirstToAnswer(Views(), ByExtension(containingType, number), i) ==>
                var found := Answer(Views()[i], ByExtension(containingType, number));
                r == if Hidden(Views(), found.value.name, i) then None else found
      ensures r.Some? ==> exists i :: FirstToAnswer(Views(), ByExtension(containingType, number), i)
    {
      for i := 0 to |sources|
        invariant forall j :: 0 <= j < i ==> Answer(Views()[j], ByExtension(containingType, number)).None?
      {
        var output := sources[i].FindExtension(containingType, number);
        if output.Some? {
          assert FirstToAnswer(Views(), ByExtension(containingType, number), i);
          for j := 0 to i
            invariant forall k :: 0 <= k < j ==> output.value.name !in Views()[k].byName
          {
            var temp := sources[j].FindFile(output.value.name);
            if temp.Some? { return None; }
          }
          return output;
        }
      }
      return None;
    }
  }

  lemma {:induction false} FirstNamed(views: seq<Index>, filename: string, i: nat)
    requires i < |views| && filename in views[i].byName && !Hidden(views, filename, i)
    ensures FileNamed(views, filename) == Some(views[i].byName[filename])
    decreases i
  {
    if i > 0 {
      assert filename !in views[0].byName;
      FirstNamed(views[1..], filename, i - 1);
    }
  }

  lemma AnswersAreBound(ix: Index, q: Question)
    requires Consistent(ix) && Answer(ix, q).Some?
    ensures Bound(ix, Answer(ix, q).value)
  {
    if q.BySymbol? {
      var i := FindLastLessOrEqual(ix.bySymbol, Above(q.symbol));
      assert ix.bySymbol[i] in ix.bySymbol;
    }
  }

  /**
   Lookups agree: over sources built by SimpleDescriptorDatabase, the file that the merged database
   returns for a symbol or extension is exactly the file it returns for that file's own name; and when
   the first answering source is hidden, the name leads to a different source.
   */
  lemma MergedLookupsAgree(views: seq<Index>, q: Question, i: nat)
    requires forall j :: 0 <= j < |views| ==> Consistent(views[j])
    requires FirstToAnswer(views, q, i)
    ensures var found := Answer(views[i], q);
            !Hidden(views, found.value.name, i) ==> FileNamed(views, found.value.name) == found
    ensures var found := Answer(views[i], q);
            Hidden(views, found.value.name, i) ==>
              exists j :: 0 <= j < i && found.value.name in views[j].byName &&
                FileNamed(views, found.value.name) == Some(views[j].byName[found.value.name])
  {
    var found := Answer(views[i], q).value;
    AnswersAreBound(views[i], q);
    if Hidden(views, found.name, i) {
      var j :| 0 <= j < i && found.name in views[j].byName;
      while j > 0 && Hidden(views, found.name, j)
        invariant 0 <= j < i && found.name in views[j].byName
        decreases j
      {
        var k :| 0 <= k < j && found.name in views[k].byName;
        j := k;
      }
      FirstNamed(views, found.name, j);
    } else {
      FirstNamed(views, found.name, i);
    }
  }
}
