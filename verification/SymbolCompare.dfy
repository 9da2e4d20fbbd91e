/**
 The ordering of the encoded index. Entries keep the package and the symbol apart, and the
 comparator tries to decide on the packages alone before it builds the joined names.
 */
module SymbolCompare {
  import opened SymbolNames

  /** A comparator operand: an entry split into package and symbol, or a plain name. */
  datatype Operand = Entry(package: string, symbol: string) | Plain(text: string)

  datatype Parts = Parts(first: string, second: string)

  function AsString(x: Operand): string {
    match x
    case Entry(package, symbol) => if package == [] then symbol else package + "." + symbol
    case Plain(text) => text
  }

  function GetParts(x: Operand): Parts {
    match x
    case Entry(package, symbol) => if package == [] then Parts(symbol, []) else Parts(package, symbol)
    case Plain(text) => Parts(text, [])
  }

  function Take(s: string, n: nat): string {
    if n <= |s| then s[..n] else s
  }

  /** SymbolCompare::operator(): compare the common length of the first parts, then the second
      parts when the first parts are equal, and the joined names only as a last resort. */
  predicate Before(lhs: Operand, rhs: Operand) {
    var l, r := GetParts(lhs), GetParts(rhs);
    var l1, r1 := Take(l.first, |r.first|), Take(r.first, |l.first|);
    if l1 != r1 then Less(l1, r1)
    else if |l.first| == |r.first| then Less(l.second, r.second)
    else Less(AsString(lhs), AsString(rhs))
  }

  /** The joined name has a separator after its first part. */
  predicate HasSeparator(x: Operand) {
    x.Entry? && x.package != []
  }

  /** The one pair of operands the fast path gets wrong: `rhs` is a package with an empty symbol
      and `lhs` is that same text without a separator. */
  predicate Degenerate(lhs: Operand, rhs: Operand) {
    HasSeparator(rhs) && rhs.symbol == [] && !HasSeparator(lhs) && AsString(lhs) == rhs.package
  }

  lemma JoinedStartsWithFirst(x: Operand)
    ensures AsString(x) == GetParts(x).first + (if HasSeparator(x) then "." + GetParts(x).second else [])
  {
    if x.Entry? && x.package != [] { assert x.package + "." + x.symbol == x.package + ("." + x.symbol); }
  }

  /** Two texts that already differ within a common length are ordered by that length. */
  lemma {:induction false} LessByPrefix(a: string, b: string, x: string, y: string)
    requires |a| == |b| && a != b
    ensures Less(a + x, b + y) <==> Less(a, b)
  {
    assert (a + x)[1..] == a[1..] + x && (b + y)[1..] == b[1..] + y;
    if a[0] == b[0] {
      assert a == [a[0]] + a[1..] && b == [b[0]] + b[1..];
      LessByPrefix(a[1..], b[1..], x, y);
    }
  }

  lemma JoinedSplit(x: Operand, n: nat)
    requires n <= |GetParts(x).first|
    ensures n <= |AsString(x)|
    ensures AsString(x) == GetParts(x).first[..n] + AsString(x)[n..]
  {
    JoinedStartsWithFirst(x);
    assert AsString(x)[..n] == GetParts(x).first[..n];
  }

  /** The first parts differ within their common length: that decides the joined names. */
  lemma FirstPartsDecide(lhs: Operand, rhs: Operand, n: nat)
    requires n == if |GetParts(lhs).first| < |GetParts(rhs).first| then |GetParts(lhs).first| else |GetParts(rhs).first|
    requires GetParts(lhs).first[..n] != GetParts(rhs).first[..n]
    ensures Less(GetParts(lhs).first[..n], GetParts(rhs).first[..n]) <==> Less(AsString(lhs), AsString(rhs))
    ensures !Degenerate(lhs, rhs)
  {
    JoinedSplit(lhs, n);
    JoinedSplit(rhs, n);
    LessByPrefix(GetParts(lhs).first[..n], GetParts(rhs).first[..n], AsString(lhs)[n..], AsString(rhs)[n..]);
  }

  /** Equal first parts: what follows them decides the joined names. */
  lemma SecondPartsDecide(lhs: Operand, rhs: Operand)
    requires GetParts(lhs).first == GetParts(rhs).first
    ensures (Less(GetParts(lhs).second, GetParts(rhs).second) <==> Less(AsString(lhs), AsString(rhs)))
            <==> !Degenerate(lhs, rhs)
  {
    var p := GetParts(lhs).first;
    var l, r := GetParts(lhs).second, GetParts(rhs).second;
    JoinedStartsWithFirst(lhs);
    JoinedStartsWithFirst(rhs);
    var x := if HasSeparator(lhs) then "." + l else [];
    var y := if HasSeparator(rhs) then "." + r else [];
    LessAfterPrefix(p, x, y);
    LessAfterPrefix(".", l, r);
  }

  /**
   The comparator decides exactly the lexicographic order of the joined names, for entries and plain
   names in any combination, except on the degenerate pair, where it never does.
   */
  lemma BeforeIsLess(lhs: Operand, rhs: Operand)
    ensures (Before(lhs, rhs) <==> Less(AsString(lhs), AsString(rhs))) <==> !Degenerate(lhs, rhs)
  {
    var l, r := GetParts(lhs).first, GetParts(rhs).first;
    var n := if |l| < |r| then |l| else |r|;
    assert Take(l, |r|) == l[..n] && Take(r, |l|) == r[..n];
    if l[..n] != r[..n] {
      FirstPartsDecide(lhs, rhs, n);
    } else if |l| == |r| {
      assert l[..n] == l && r[..n] == r;
      SecondPartsDecide(lhs, rhs);
    } else {
      assert !Degenerate(lhs, rhs);
    }
  }

  /** With non-empty symbols on the entries the order is exact, so it is the strict total order of the
      joined names: two operands tie exactly when they spell the same name. */
  lemma BeforeIsStrictOrder(a: Operand, b: Operand, c: Operand)
    requires forall x :: x in [a, b, c] && x.Entry? ==> x.symbol != []
    ensures !Before(a, a)
    ensures Before(a, b) && Before(b, c) ==> Before(a, c)
    ensures Before(a, b) || Before(b, a) || AsString(a) == AsString(b)
    ensures Before(a, b) ==> !Before(b, a) && AsString(a) != AsString(b)
  {
    assert a in [a, b, c] && b in [a, b, c] && c in [a, b, c];
    BeforeIsLess(a, a);
    BeforeIsLess(a, b);
    BeforeIsLess(b, a);
    BeforeIsLess(b, c);
    BeforeIsLess(a, c);
    LessIrreflexive(AsString(a));
    LessTotal(AsString(a), AsString(b));
    if Before(a, b) { LessAsymmetric(AsString(a), AsString(b)); }
    if Before(a, b) && Before(b, c) { LessTrans(AsString(a), AsString(b), AsString(c)); }
  }
}
