/** Lexicographic order, strings as the byte order of Go compares them, and sorting of
    finite sets by a strict total order. */
module Orders {
  function CompareInt(a: int, b: int): int {
    if a < b then -1 else if a > b then 1 else 0
  }

  /** A proper prefix comes first. */
  function Lex(a: seq<int>, b: seq<int>): int {
    if a == [] && b == [] then 0
    else if a == [] then -1
    else if b == [] then 1
    else if CompareInt(a[0], b[0]) != 0 then CompareInt(a[0], b[0])
    else Lex(a[1..], b[1..])
  }

  lemma {:induction false} LexFlip(a: seq<int>, b: seq<int>)
    ensures Lex(a, b) == -Lex(b, a)
    ensures Lex(a, b) == -1 || Lex(a, b) == 0 || Lex(a, b) == 1
  {
    if a != [] && b != [] && a[0] == b[0] {
      LexFlip(a[1..], b[1..]);
    }
  }

  lemma {:induction false} LexZero(a: seq<int>, b: seq<int>)
    ensures Lex(a, b) == 0 <==> a == b
  {
    if a != [] && b != [] {
      LexZero(a[1..], b[1..]);
      assert a == [a[0]] + a[1..] && b == [b[0]] + b[1..];
    }
  }

  lemma {:induction false} LexTransitive(a: seq<int>, b: seq<int>, c: seq<int>)
    requires Lex(a, b) <= 0 && Lex(b, c) <= 0
    ensures Lex(a, c) <= 0
    ensures Lex(a, b) < 0 || Lex(b, c) < 0 ==> Lex(a, c) < 0
  {
    LexZero(a, b);
    LexZero(b, c);
    if a != [] && b != [] && c != [] && a[0] == b[0] == c[0] {
      LexTransitive(a[1..], b[1..], c[1..]);
    }
  }

  function Codes(s: string): seq<int> {
    seq(|s|, i requires 0 <= i < |s| => s[i] as int)
  }

  lemma CodesInjective(a: string, b: string)
    requires Codes(a) == Codes(b)
    ensures a == b
  {
    assert |a| == |Codes(a)| == |Codes(b)| == |b|;
    forall i | 0 <= i < |a| ensures a[i] == b[i] {
      assert Codes(a)[i] == Codes(b)[i];
    }
  }

  /** strings.Compare. */
  function StringCompare(a: string, b: string): int {
    Lex(Codes(a), Codes(b))
  }

  lemma StringOrder(a: string, b: string)
    ensures StringCompare(a, b) == -StringCompare(b, a)
    ensures StringCompare(a, b) == -1 || StringCompare(a, b) == 0 || StringCompare(a, b) == 1
    ensures StringCompare(a, b) == 0 <==> a == b
  {
    LexFlip(Codes(a), Codes(b));
    LexZero(Codes(a), Codes(b));
    if Codes(a) == Codes(b) {
      CodesInjective(a, b);
    }
  }

  lemma StringTransitive(a: string, b: string, c: string)
    requires StringCompare(a, b) <= 0 && StringCompare(b, c) <= 0
    ensures StringCompare(a, c) <= 0
    ensures StringCompare(a, b) < 0 || StringCompare(b, c) < 0 ==> StringCompare(a, c) < 0
  {
    LexTransitive(Codes(a), Codes(b), Codes(c));
  }

  // ------------------------------------------------------------- what the order means

  /** The first difference decides: a smaller number, or the end of `a` alone. */
  ghost predicate Precedes(a: seq<int>, b: seq<int>) {
    exists k: nat :: DiffersAt(a, b, k)
  }

  ghost predicate DiffersAt(a: seq<int>, b: seq<int>, k: nat) {
    k <= |a| && k < |b| && a[..k] == b[..k] && (k == |a| || a[k] < b[k])
  }

  /** A negative answer means that the first argument precedes the second. */
  lemma {:induction false} LexMeans(a: seq<int>, b: seq<int>)
    ensures Lex(a, b) < 0 <==> Precedes(a, b)
    decreases |a|
  {
    if a != [] && b != [] && a[0] == b[0] {
      LexMeans(a[1..], b[1..]);
      if k: nat :| DiffersAt(a[1..], b[1..], k) {
        assert a[..k + 1] == [a[0]] + a[1..][..k] && b[..k + 1] == [b[0]] + b[1..][..k];
        assert DiffersAt(a, b, k + 1);
      }
      if k: nat :| DiffersAt(a, b, k) {
        assert k > 0;
        assert a[1..][..k - 1] == a[..k][1..] && b[1..][..k - 1] == b[..k][1..];
        assert DiffersAt(a[1..], b[1..], k - 1);
      }
    } else if b != [] && (a == [] || a[0] < b[0]) {
      assert DiffersAt(a, b, 0);
    } else if k: nat :| DiffersAt(a, b, k) {
      assert k > 0 ==> a[..k][0] == b[..k][0];
    }
  }

  ghost predicate TextPrecedes(a: string, b: string) {
    exists k: nat :: TextDiffersAt(a, b, k)
  }

  ghost predicate TextDiffersAt(a: string, b: string, k: nat) {
    k <= |a| && k < |b| && a[..k] == b[..k] && (k == |a| || a[k] < b[k])
  }

  /** strings.Compare is the order of dictionaries. */
  lemma StringCompareMeans(a: string, b: string)
    ensures StringCompare(a, b) < 0 <==> TextPrecedes(a, b)
    ensures StringCompare(a, b) > 0 <==> TextPrecedes(b, a)
  {
    TextMeans(a, b);
    TextMeans(b, a);
    StringOrder(a, b);
  }

  lemma TextMeans(a: string, b: string)
    ensures StringCompare(a, b) < 0 <==> TextPrecedes(a, b)
  {
    LexMeans(Codes(a), Codes(b));
    if k: nat :| TextDiffersAt(a, b, k) {
      assert Codes(a)[..k] == Codes(a[..k]) && Codes(b)[..k] == Codes(b[..k]);
      assert DiffersAt(Codes(a), Codes(b), k);
    }
    if k: nat :| DiffersAt(Codes(a), Codes(b), k) {
      forall i | 0 <= i < k ensures a[i] == b[i] {
        assert Codes(a)[..k][i] == Codes(b)[..k][i];
      }
      assert TextDiffersAt(a, b, k);
    }
  }

  // ----------------------------------------------------------------- sorted sequences

  ghost predicate StrictOrder<T(!new)>(lt: (T, T) -> bool) {
    && (forall x, y :: !(lt(x, y) && lt(y, x)))
    && (forall x, y, z :: lt(x, y) && lt(y, z) ==> lt(x, z))
    && (forall x, y :: lt(x, y) || x == y || lt(y, x))
  }

  predicate StrictlySorted<T>(lt: (T, T) -> bool, s: seq<T>) {
    forall i, j :: 0 <= i < j < |s| ==> lt(s[i], s[j])
  }

  ghost predicate Enumerates<T>(s: seq<T>, xs: set<T>) {
    (forall x <- xs :: x in s) && (forall i :: 0 <= i < |s| ==> s[i] in xs)
  }

  /** The sorted enumeration of a set is unique. */
  lemma {:induction false} SortedUnique<T(!new)>(lt: (T, T) -> bool, a: seq<T>, b: seq<T>, xs: set<T>)
    requires StrictOrder(lt) && StrictlySorted(lt, a) && StrictlySorted(lt, b)
    requires Enumerates(a, xs) && Enumerates(b, xs)
    ensures a == b
    decreases |a|
  {
    if a == [] {
      assert xs == {};
      NothingToEnumerate(b, xs);
    } else {
      assert a[0] in xs && a[0] in b;
      assert b[0] in xs && b[0] in a;
      assert a[0] == b[0];
      var rest := xs - {a[0]};
      assert Enumerates(a[1..], rest) by { RestEnumerates(lt, a, xs); }
      assert Enumerates(b[1..], rest) by { RestEnumerates(lt, b, xs); }
      SortedUnique(lt, a[1..], b[1..], rest);
      assert a == [a[0]] + a[1..] && b == [b[0]] + b[1..];
    }
  }

  lemma NothingToEnumerate<T>(b: seq<T>, xs: set<T>)
    requires Enumerates(b, xs)
    ensures xs == {} ==> b == []
  {
    if b != [] {
      assert b[0] in xs;
    }
  }

  lemma RestEnumerates<T(!new)>(lt: (T, T) -> bool, a: seq<T>, xs: set<T>)
    requires StrictOrder(lt) && StrictlySorted(lt, a) && Enumerates(a, xs) && a != []
    ensures Enumerates(a[1..], xs - {a[0]})
  {
    forall i | 0 <= i < |a| - 1 ensures a[1..][i] in xs - {a[0]} {
      assert a[1..][i] == a[i + 1] && lt(a[0], a[i + 1]);
    }
  }

  method Sort<T(==, !new)>(lt: (T, T) -> bool, xs: set<T>) returns (r: seq<T>)
    requires StrictOrder(lt)
    ensures StrictlySorted(lt, r) && Enumerates(r, xs)
  {
    r := [];
    var todo := xs;
    while todo != {}
      invariant todo <= xs && StrictlySorted(lt, r) && Enumerates(r, xs - todo)
      decreases |todo|
    {
      var x :| x in todo;
      assert x !in r;
      var i := 0;
      while i < |r| && lt(r[i], x)
        invariant 0 <= i <= |r|
        invariant forall j :: 0 <= j < i ==> lt(r[j], x)
      {
        i := i + 1;
      }
      InsertSorted(lt, r, i, x);
      ghost var before := r;
      r := r[..i] + [x] + r[i..];
      todo := todo - {x};
      assert x == r[i];
      forall y <- xs - todo ensures y in r {
        if y != x {
          assert y in before;
          assert before == before[..i] + before[i..];
        }
      }
    }
    assert xs - todo == xs;
  }

  lemma InsertSorted<T(!new)>(lt: (T, T) -> bool, r: seq<T>, i: nat, x: T)
    requires StrictOrder(lt) && StrictlySorted(lt, r) && i <= |r| && x !in r
    requires forall j :: 0 <= j < i ==> lt(r[j], x)
    requires i < |r| ==> !lt(r[i], x)
    ensures StrictlySorted(lt, r[..i] + [x] + r[i..])
  {
    var s := r[..i] + [x] + r[i..];
    forall j | i <= j < |r| ensures lt(x, r[j]) {
      assert r[i] != x && lt(x, r[i]);
    }
    forall a, b | 0 <= a < b < |s| ensures lt(s[a], s[b]) {
      var fa := if a < i then r[a] else if a == i then x else r[a - 1];
      var fb := if b < i then r[b] else if b == i then x else r[b - 1];
      assert s[a] == fa && s[b] == fb;
    }
  }

  // --------------------------------------------------------------- sorting by a preorder

  ghost predicate Comparable<T>(cmp: (T, T) -> int, x: T, y: T, z: T) {
    && (cmp(x, y) <= 0 || cmp(y, x) <= 0)
    && (cmp(x, y) <= 0 && cmp(y, z) <= 0 ==> cmp(x, z) <= 0)
  }

  ghost predicate TotalPreorder<T(!new)>(cmp: (T, T) -> int) {
    forall x, y, z {:trigger Comparable(cmp, x, y, z)} :: Comparable(cmp, x, y, z)
  }

  predicate SortedBy<T>(cmp: (T, T) -> int, s: seq<T>) {
    forall i, j :: 0 <= i < j < |s| ==> cmp(s[i], s[j]) <= 0
  }

  method InsertBy<T(!new)>(cmp: (T, T) -> int, s: seq<T>, x: T) returns (r: seq<T>)
    requires TotalPreorder(cmp) && SortedBy(cmp, s)
    ensures SortedBy(cmp, r) && multiset(r) == multiset(s) + multiset{x}
  {
    var i := 0;
    while i < |s| && cmp(s[i], x) <= 0
      invariant 0 <= i <= |s|
      invariant forall j :: 0 <= j < i ==> cmp(s[j], x) <= 0
    {
      i := i + 1;
    }
    r := s[..i] + [x] + s[i..];
    assert s == s[..i] + s[i..];
    InsertSortedBy(cmp, s, i, x);
  }

  lemma InsertSortedBy<T(!new)>(cmp: (T, T) -> int, s: seq<T>, i: nat, x: T)
    requires TotalPreorder(cmp) && SortedBy(cmp, s) && i <= |s|
    requires forall j :: 0 <= j < i ==> cmp(s[j], x) <= 0
    requires i < |s| ==> cmp(s[i], x) > 0
    ensures SortedBy(cmp, s[..i] + [x] + s[i..])
  {
    forall j | i <= j < |s| ensures cmp(x, s[j]) <= 0 {
      assert Comparable(cmp, s[i], x, x) && Comparable(cmp, x, s[i], s[j]);
    }
    var r := s[..i] + [x] + s[i..];
    forall a, b | 0 <= a < b < |r| ensures cmp(r[a], r[b]) <= 0 {
      var fa := if a < i then s[a] else if a == i then x else s[a - 1];
      var fb := if b < i then s[b] else if b == i then x else s[b - 1];
      assert r[a] == fa && r[b] == fb;
    }
  }

  method SortBy<T(!new)>(cmp: (T, T) -> int, s: seq<T>) returns (r: seq<T>)
    requires TotalPreorder(cmp)
    ensures SortedBy(cmp, r) && multiset(r) == multiset(s)
  {
    r := [];
    for n := 0 to |s|
      invariant SortedBy(cmp, r) && multiset(r) == multiset(s[..n])
    {
      r := InsertBy(cmp, r, s[n]);
      assert s[..n + 1] == s[..n] + [s[n]];
    }
    assert s[..|s|] == s;
  }
}
