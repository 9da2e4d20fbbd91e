/**
 Dotted symbol names, the order std::string gives them, and the "sub-symbol"
 relation of the descriptor index. A character stands for one byte, so the order
 on characters is the unsigned byte order that std::string::compare uses.
 */
module SymbolNames {

  /** Lexicographic order: std::string::operator<. */
  predicate Less(a: string, b: string) {
    if b == [] then false
    else if a == [] then true
    else a[0] < b[0] || (a[0] == b[0] && Less(a[1..], b[1..]))
  }

  predicate IsNameChar(c: char) {
    c == '.' || c == '_' || '0' <= c <= '9' || 'A' <= c <= 'Z' || 'a' <= c <= 'z'
  }

  /** The loop of ValidateSymbolName: every byte is alphanumeric, '_' or '.'. */
  method ValidateSymbolName(name: string) returns (ok: bool)
    ensures ok <==> Valid(name)
  {
    for i := 0 to |name|
      invariant forall k :: 0 <= k < i ==> IsNameChar(name[k])
    {
      var c := name[i];
      if c != '.' && c != '_' && (c < '0' || c > '9') && (c < 'A' || c > 'Z') && (c < 'a' || c > 'z') {
        return false;
      }
    }
    return true;
  }

  predicate Valid(name: string) {
    forall k :: 0 <= k < |name| ==> IsNameChar(name[k])
  }

  /** `sup` equals `sub`, or is `sub` followed by a dot and anything: `sub` is the
      equal or enclosing name. (The source names its parameters the other way round.) */
  predicate IsSubSymbol(sub: string, sup: string) {
    sub == sup || (sub <= sup && sup[|sub|] == '.')
  }

  // ----- what the definitions decide -----

  const DIGITS := "0123456789"
  const UPPER := "ABCDEFGHIJKLMNOPQRSTUVWXYZ"
  const LOWER := "abcdefghijklmnopqrstuvwxyz"

  /** The characters of a name, one by one. */
  lemma Alphabet(c: char)
    ensures IsNameChar(c) <==> c in "._" || c in DIGITS || c in UPPER || c in LOWER
  {
  }

  /** A name encloses itself and what follows it behind a dot. */
  lemma SubSymbolIs(sub: string, sup: string)
    ensures IsSubSymbol(sub, sup) <==> sup == sub || exists rest :: sup == sub + "." + rest
  {
    if IsSubSymbol(sub, sup) && sub != sup {
      assert sup == sub + "." + sup[|sub| + 1..];
    }
  }

  /** The documented example. */
  lemma SubSymbolExample()
    ensures IsSubSymbol("foo.bar", "foo.bar.baz") && !IsSubSymbol("foo.bar", "foo.barbaz")
  {
    assert "foo.bar.baz"[7] == '.' && "foo.barbaz"[7] == 'b';
  }

  /** a and b agree up to k, where a ends first or has the smaller byte. */
  predicate LessAt(a: string, b: string, k: int) {
    0 <= k <= |a| && k < |b| && a[..k] == b[..k] && (k == |a| || a[k] < b[k])
  }

  lemma {:induction false} LessIs(a: string, b: string)
    ensures Less(a, b) <==> exists k :: LessAt(a, b, k)
  {
    if Less(a, b) { var k := FirstDifference(a, b); }
    forall k | LessAt(a, b, k)
      ensures Less(a, b)
    {
      assert a == a[..k] + a[k..] && b == a[..k] + b[k..];
      LessAfterPrefix(a[..k], a[k..], b[k..]);
    }
  }

  lemma {:induction false} FirstDifference(a: string, b: string) returns (k: nat)
    requires Less(a, b)
    ensures LessAt(a, b, k)
  {
    k := 0;
    if a != [] && a[0] == b[0] {
      var i := FirstDifference(a[1..], b[1..]);
      k := i + 1;
      assert a[..k] == [a[0]] + a[1..][..i] && b[..k] == [b[0]] + b[1..][..i];
    }
  }

  // ----- the order is a strict total order -----

  lemma {:induction false} LessIrreflexive(a: string)
    ensures !Less(a, a)
  {
    if a != [] { LessIrreflexive(a[1..]); }
  }

  lemma {:induction false} LessTrans(a: string, b: string, c: string)
    requires Less(a, b) && Less(b, c)
    ensures Less(a, c)
  {
    if a != [] && a[0] == b[0] == c[0] { LessTrans(a[1..], b[1..], c[1..]); }
  }

  lemma {:induction false} LessTotal(a: string, b: string)
    ensures Less(a, b) || a == b || Less(b, a)
  {
    if a != [] && b != [] && a[0] == b[0] {
      LessTotal(a[1..], b[1..]);
      assert a == [a[0]] + a[1..] && b == [b[0]] + b[1..];
    }
  }

  lemma LessAsymmetric(a: string, b: string)
    requires Less(a, b)
    ensures !Less(b, a) && a != b
  {
    LessIrreflexive(a);
    if Less(b, a) { LessTrans(a, b, a); }
  }

  /** Not-greater followed by less, and less followed by not-greater, are both less. */
  lemma LessMixedTrans(a: string, b: string, c: string)
    ensures !Less(b, a) && Less(b, c) ==> Less(a, c)
    ensures Less(a, b) && !Less(c, b) ==> Less(a, c)
  {
    LessTotal(a, b);
    LessTotal(b, c);
    if Less(a, b) && Less(b, c) { LessTrans(a, b, c); }
  }

  /** A common prefix does not matter to the order. */
  lemma {:induction false} LessAfterPrefix(p: string, a: string, b: string)
    ensures Less(p + a, p + b) <==> Less(a, b)
  {
    if p == [] {
      assert p + a == a && p + b == b;
    } else {
      LessAfterPrefix(p[1..], a, b);
      assert (p + a)[1..] == p[1..] + a && (p + b)[1..] == p[1..] + b;
    }
  }

  // ----- how the order and the sub-symbol relation interact -----

  lemma {:induction false} PrefixNotGreater(a: string, b: string)
    requires a <= b
    ensures !Less(b, a)
  {
    if a != [] { PrefixNotGreater(a[1..], b[1..]); }
  }

  /** A parent sorts no later than its children. */
  lemma SubSymbolNotGreater(m: string, q: string)
    requires IsSubSymbol(m, q)
    ensures m == q || Less(m, q)
  {
    PrefixNotGreater(m, q);
    LessTotal(m, q);
  }

  /**
   Steps 5 to 8 of the argument in descriptor_database.h: any valid name that sorts
   between a parent and one of its sub-symbols is itself a sub-symbol of the parent.
   The sub-symbol `q` may hold arbitrary bytes.
   */
  lemma {:induction false} Between(m: string, f: string, q: string)
    requires IsSubSymbol(m, q)
    requires Valid(f)
    requires !Less(f, m) && !Less(q, f)
    ensures IsSubSymbol(m, f)
  {
    if m == q {
      LessTotal(f, m);
    } else if m == [] {
      if f != [] {
        assert IsNameChar(f[0]) && f[0] <= '.';
      }
    } else {
      assert f != [];
      assert f[0] == m[0];
      Between(m[1..], f[1..], q[1..]);
      assert f == [f[0]] + f[1..] && m == [m[0]] + m[1..];
    }
  }

  /** What lies between a name and that name with "0" appended: children of it, and the latter itself. */
  lemma {:induction false} GapBeforeZero(a: string, k: string)
    requires Less(a, k) && !Less(a + "0", k) && Valid(k)
    ensures IsSubSymbol(a, k) || k == a + "0"
  {
    if a == [] {
      assert k[0] <= '0' && IsNameChar(k[0]);
      if k[0] == '0' { assert k[1..] == []; }
    } else {
      assert (a + "0")[1..] == a[1..] + "0";
      assert Valid(k[1..]);
      GapBeforeZero(a[1..], k[1..]);
      assert k == [k[0]] + k[1..] && a == [a[0]] + a[1..];
    }
  }

  /** Two equal-or-enclosing names of one name are comparable. */
  lemma ParentsComparable(a: string, b: string, c: string)
    requires IsSubSymbol(a, c) && IsSubSymbol(b, c)
    ensures IsSubSymbol(a, b) || IsSubSymbol(b, a)
  {
    if |a| <= |b| {
      assert a == c[..|a|] && b == c[..|b|];
      assert a == b[..|a|];
    } else {
      assert a == c[..|a|] && b == c[..|b|];
      assert b == a[..|b|];
    }
  }
}
