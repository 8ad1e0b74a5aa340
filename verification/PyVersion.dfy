/** PEP 440 versions and their order. The loops of the code are proved to compute the
    lexicographic order of one integer key per version. */
module PyVersion {
  import opened Common
  import opened Orders

  datatype Version = Version(
    raw: string, epoch: int, release: seq<nat>,
    hasPre: bool, preKind: int, preNum: int,
    hasPost: bool, postNum: int,
    hasDev: bool, devNum: int,
    local: seq<string>)

  // -------------------------------------------------------------------------- Atoi

  predicate IsDigit(c: char) {
    '0' <= c <= '9'
  }

  predicate AllDigits(s: string) {
    forall c <- s :: IsDigit(c)
  }

  function Digits(s: string): nat
    requires AllDigits(s)
  {
    if s == "" then 0
    else
      assert IsDigit(s[|s| - 1]);
      10 * Digits(s[..|s| - 1]) + (s[|s| - 1] as int - '0' as int)
  }

  /** strconv.Atoi: an optional sign, decimal digits, within 64 bits. */
  function Atoi(s: string): Option<int> {
    if s == "" then None
    else
      var signed := s[0] == '+' || s[0] == '-';
      var digits := if signed then s[1..] else s;
      if digits == "" || !AllDigits(digits) then None
      else
        var n: int := Digits(digits);
        if s[0] == '-' then (if n <= INT64_LIMIT then Some(-n) else None)
        else if n < INT64_LIMIT then Some(n)
        else None
  }

  // --------------------------------------------------------------------------- key

  /** A release without its trailing zeros. */
  function Strip(s: seq<int>): seq<int> {
    if s == [] then []
    else
      var rest := Strip(s[1..]);
      if rest == [] && s[0] == 0 then [] else [s[0]] + rest
  }

  /** A list of non-negative numbers, followed by a mark that sorts before any of them. */
  function Delimited(s: seq<int>): seq<int> {
    if s == [] then [0] else [s[0] + 1] + Delimited(s[1..])
  }

  function PreKey(v: Version): seq<int> {
    if v.hasPre then [0, v.preKind, v.preNum]
    else if v.hasDev && !v.hasPost then [-1, 0, 0]
    else [1, 0, 0]
  }

  /** No post-release sorts before any; no development release after any. */
  function PostKey(v: Version): seq<int> {
    if v.hasPost then [1, v.postNum] else [0, 0]
  }

  function DevKey(v: Version): seq<int> {
    if v.hasDev then [0, v.devNum] else [1, 0]
  }

  /** Numeric segments sort after alphanumeric ones, and the end before both. */
  function SegmentKey(s: string): seq<int> {
    match Atoi(s)
    case Some(n) => [2, n]
    case None => [1] + Delimited(Codes(s))
  }

  function LocalKey(local: seq<string>): seq<int> {
    if local == [] then [0] else SegmentKey(local[0]) + LocalKey(local[1..])
  }

  function Key(v: Version): seq<int> {
    [v.epoch] + (Delimited(Strip(v.release)) + (PreKey(v) + (PostKey(v) + (DevKey(v) + LocalKey(v.local)))))
  }

  /** The order of versions. */
  function Order(a: Version, b: Version): int {
    Lex(Key(a), Key(b))
  }

  /** Order is a total preorder with opposite signs when its arguments are swapped. */
  lemma OrderIsTotal(a: Version, b: Version, c: Version)
    ensures Order(a, a) == 0
    ensures Order(a, b) == -Order(b, a)
    ensures Order(a, b) <= 0 || Order(b, a) <= 0
    ensures Order(a, b) <= 0 && Order(b, c) <= 0 ==> Order(a, c) <= 0
    ensures Order(a, b) <= 0 && Order(b, c) <= 0 && Order(a, c) == 0 ==> Order(a, b) == 0 && Order(b, c) == 0
  {
    LexZero(Key(a), Key(a));
    LexFlip(Key(a), Key(b));
    if Order(a, b) <= 0 && Order(b, c) <= 0 {
      LexTransitive(Key(a), Key(b), Key(c));
    }
  }

  // ------------------------------------------------------------- keys and their parts

  function Then(first: int, second: int): int {
    if first != 0 then first else second
  }

  lemma {:induction false} LexSameLength(a: seq<int>, b: seq<int>, s: seq<int>, t: seq<int>)
    requires |a| == |b|
    ensures Lex(a + s, b + t) == Then(Lex(a, b), Lex(s, t))
  {
    if a == [] {
      assert a + s == s && b + t == t;
    } else {
      assert (a + s)[1..] == a[1..] + s && (b + t)[1..] == b[1..] + t;
      LexSameLength(a[1..], b[1..], s, t);
    }
  }

  ghost predicate NonNegative(s: seq<int>) {
    forall i :: 0 <= i < |s| ==> s[i] >= 0
  }

  lemma DelimitedCons(a: seq<int>, s: seq<int>)
    ensures var x := Delimited(a) + s;
            && x != [] && x[0] == (if a == [] then 0 else a[0] + 1)
            && x[1..] == if a == [] then s else Delimited(a[1..]) + s
  {
    var x := Delimited(a) + s;
    if a != [] {
      assert x == [a[0] + 1] + (Delimited(a[1..]) + s);
    }
  }

  lemma {:induction false} LexDelimited(a: seq<int>, b: seq<int>, s: seq<int>, t: seq<int>)
    requires NonNegative(a) && NonNegative(b)
    ensures Lex(Delimited(a) + s, Delimited(b) + t) == Then(Lex(a, b), Lex(s, t))
  {
    DelimitedCons(a, s);
    DelimitedCons(b, t);
    if a != [] && b != [] {
      assert a[0] >= 0 && b[0] >= 0;
      LexDelimited(a[1..], b[1..], s, t);
    } else {
      assert a != [] ==> a[0] >= 0;
      assert b != [] ==> b[0] >= 0;
    }
  }

  lemma CodesNonNegative(s: string)
    ensures NonNegative(Codes(s))
  {
  }

  /** Comparing two local segments, then what follows them. */
  function SegmentOrder(a: string, b: string): int {
    match (Atoi(a), Atoi(b))
    case (Some(m), Some(n)) => CompareInt(m, n)
    case (Some(_), None) => 1
    case (None, Some(_)) => -1
    case (None, None) => StringCompare(a, b)
  }

  lemma LexNumbers(m: int, n: int, s: seq<int>, t: seq<int>)
    ensures Lex([2, m] + s, [2, n] + t) == Then(CompareInt(m, n), Lex(s, t))
  {
    LexSameLength([2, m], [2, n], s, t);
    LexPair(2, m, 2, n);
  }

  lemma LexTexts(a: seq<int>, b: seq<int>, s: seq<int>, t: seq<int>)
    requires NonNegative(a) && NonNegative(b)
    ensures Lex([1] + Delimited(a) + s, [1] + Delimited(b) + t) == Then(Lex(a, b), Lex(s, t))
  {
    assert [1] + Delimited(a) + s == [1] + (Delimited(a) + s) && [1] + Delimited(b) + t == [1] + (Delimited(b) + t);
    LexSameLength([1], [1], Delimited(a) + s, Delimited(b) + t);
    LexZero([1], [1]);
    LexDelimited(a, b, s, t);
  }

  lemma LexFirst(a: seq<int>, b: seq<int>)
    requires a != [] && b != [] && a[0] != b[0]
    ensures Lex(a, b) == CompareInt(a[0], b[0])
  {
  }

  lemma LexSegment(a: string, b: string, s: seq<int>, t: seq<int>)
    ensures Lex(SegmentKey(a) + s, SegmentKey(b) + t) == Then(SegmentOrder(a, b), Lex(s, t))
  {
    var x, y := Atoi(a), Atoi(b);
    if x.Some? && y.Some? {
      LexNumbers(x.value, y.value, s, t);
    } else if x.None? && y.None? {
      CodesNonNegative(a);
      CodesNonNegative(b);
      LexTexts(Codes(a), Codes(b), s, t);
    } else {
      LexFirst(SegmentKey(a) + s, SegmentKey(b) + t);
    }
  }

  // ------------------------------------------------------------------------- compare

  function Tail(s: seq<int>): seq<int> {
    if s == [] then [] else s[1..]
  }

  function Head(s: seq<int>): int {
    if s == [] then 0 else s[0]
  }

  /** Stripping trailing zeros turns zero-padded comparison into lexicographic order. */
  lemma StripStep(a: seq<int>, b: seq<int>)
    requires NonNegative(a) && NonNegative(b)
    ensures Lex(Strip(a), Strip(b)) == Then(CompareInt(Head(a), Head(b)), Lex(Strip(Tail(a)), Strip(Tail(b))))
  {
    StripNonNegative(a);
    StripNonNegative(b);
    StripCons(a);
    StripCons(b);
  }

  lemma StripCons(a: seq<int>)
    ensures Strip(a) == [] ==> Head(a) == 0 && Strip(Tail(a)) == []
    ensures Strip(a) != [] ==> a != [] && Strip(a)[0] == Head(a) && Strip(a)[1..] == Strip(Tail(a))
    ensures Strip(a) != [] && Strip(Tail(a)) == [] ==> Head(a) != 0
  {
    if a != [] {
      assert ([a[0]] + Strip(a[1..]))[1..] == Strip(a[1..]);
    }
  }

  lemma {:induction false} StripNonNegative(a: seq<int>)
    requires NonNegative(a)
    ensures NonNegative(Strip(a)) && |Strip(a)| <= |a|
  {
    if a != [] {
      StripNonNegative(a[1..]);
    }
  }

  /** The padding loop decides as the stripped releases do. */
  method CompareRelease(left: seq<nat>, right: seq<nat>) returns (c: int)
    ensures c == Lex(Strip(left), Strip(right))
  {
    var length := if |left| > |right| then |left| else |right|;
    var i := 0;
    ghost var l: seq<int>, r: seq<int> := left, right;
    while i < length
      invariant 0 <= i <= length
      invariant l == if i <= |left| then left[i..] else []
      invariant r == if i <= |right| then right[i..] else []
      invariant Lex(Strip(left), Strip(right)) == Lex(Strip(l), Strip(r))
    {
      var leftPart, rightPart := 0, 0;
      if i < |left| {
        leftPart := left[i];
      }
      if i < |right| {
        rightPart := right[i];
      }
      StripStep(l, r);
      var compared := CompareInt(leftPart, rightPart);
      if compared != 0 {
        return compared;
      }
      l, r := Tail(l), Tail(r);
      i := i + 1;
    }
    return 0;
  }

  method CompareLocal(left: seq<string>, right: seq<string>) returns (c: int)
    ensures c == Lex(LocalKey(left), LocalKey(right))
  {
    if |left| == 0 && |right| == 0 {
      return 0;
    }
    if |left| == 0 {
      SegmentIsPositive(right[0]);
      return -1;
    }
    if |right| == 0 {
      SegmentIsPositive(left[0]);
      return 1;
    }
    var length := if |left| < |right| then |left| else |right|;
    var i := 0;
    while i < length
      invariant 0 <= i <= length
      invariant Lex(LocalKey(left), LocalKey(right)) == Lex(LocalKey(left[i..]), LocalKey(right[i..]))
    {
      assert left[i..][1..] == left[i + 1..] && right[i..][1..] == right[i + 1..];
      LexSegment(left[i], right[i], LocalKey(left[i + 1..]), LocalKey(right[i + 1..]));
      var leftNumber, rightNumber := Atoi(left[i]), Atoi(right[i]);
      if leftNumber.Some? && rightNumber.Some? {
        var compared := CompareInt(leftNumber.value, rightNumber.value);
        if compared != 0 {
          return compared;
        }
      } else {
        if leftNumber.Some? {
          return 1;
        }
        if rightNumber.Some? {
          return -1;
        }
        var compared := StringCompare(left[i], right[i]);
        if compared != 0 {
          return compared;
        }
      }
      i := i + 1;
    }
    LeftOver(left[i..], right[i..]);
    return CompareInt(|left|, |right|);
  }

  lemma SegmentIsPositive(s: string)
    ensures SegmentKey(s) != [] && SegmentKey(s)[0] > 0
  {
  }

  lemma LeftOver(left: seq<string>, right: seq<string>)
    requires left == [] || right == []
    ensures Lex(LocalKey(left), LocalKey(right)) == CompareInt(|left|, |right|)
  {
    if left != [] {
      SegmentIsPositive(left[0]);
    }
    if right != [] {
      SegmentIsPositive(right[0]);
    }
  }

  function CompareOptional(leftSet: bool, left: int, rightSet: bool, right: int, missingRank: int): int {
    if !leftSet && !rightSet then 0
    else if !leftSet then missingRank
    else if !rightSet then -missingRank
    else CompareInt(left, right)
  }

  function ComparePre(a: Version, b: Version): int {
    var (ar, ak, an) :=
      if a.hasPre then (0, a.preKind, a.preNum) else if a.hasDev && !a.hasPost then (-1, 0, 0) else (1, 0, 0);
    var (br, bk, bn) :=
      if b.hasPre then (0, b.preKind, b.preNum) else if b.hasDev && !b.hasPost then (-1, 0, 0) else (1, 0, 0);
    Then(CompareInt(ar, br), Then(CompareInt(ak, bk), CompareInt(an, bn)))
  }

  lemma LexPair(a: int, b: int, x: int, y: int)
    ensures Lex([a, b], [x, y]) == Then(CompareInt(a, x), CompareInt(b, y))
  {
    assert [a, b][1..] == [b] && [x, y][1..] == [y] && [b][1..] == [] && [y][1..] == [];
    assert Lex([b], [y]) == CompareInt(b, y);
  }

  lemma LexTriple(a: int, b: int, c: int, x: int, y: int, z: int)
    ensures Lex([a, b, c], [x, y, z]) == Then(CompareInt(a, x), Then(CompareInt(b, y), CompareInt(c, z)))
  {
    assert [a, b, c][1..] == [b, c] && [x, y, z][1..] == [y, z];
    LexPair(b, c, y, z);
  }

  /** The key compares part by part. */
  lemma KeyParts(a: Version, b: Version)
    ensures Order(a, b) ==
            Then(CompareInt(a.epoch, b.epoch),
            Then(Lex(Strip(a.release), Strip(b.release)),
            Then(ComparePre(a, b),
            Then(CompareOptional(a.hasPost, a.postNum, b.hasPost, b.postNum, -1),
            Then(CompareOptional(a.hasDev, a.devNum, b.hasDev, b.devNum, 1),
                 Lex(LocalKey(a.local), LocalKey(b.local)))))))
  {
    var a4, b4 := DevKey(a) + LocalKey(a.local), DevKey(b) + LocalKey(b.local);
    var a3, b3 := PostKey(a) + a4, PostKey(b) + b4;
    var a2, b2 := PreKey(a) + a3, PreKey(b) + b3;
    var a1, b1 := Delimited(Strip(a.release)) + a2, Delimited(Strip(b.release)) + b2;
    LexSameLength([a.epoch], [b.epoch], a1, b1);
    assert [a.epoch][1..] == [] && [b.epoch][1..] == [];
    StripNonNegative(a.release);
    StripNonNegative(b.release);
    LexDelimited(Strip(a.release), Strip(b.release), a2, b2);
    LexSameLength(PreKey(a), PreKey(b), a3, b3);
    LexTriple(PreKey(a)[0], PreKey(a)[1], PreKey(a)[2], PreKey(b)[0], PreKey(b)[1], PreKey(b)[2]);
    LexSameLength(PostKey(a), PostKey(b), a4, b4);
    LexPair(PostKey(a)[0], PostKey(a)[1], PostKey(b)[0], PostKey(b)[1]);
    LexSameLength(DevKey(a), DevKey(b), LocalKey(a.local), LocalKey(b.local));
    LexPair(DevKey(a)[0], DevKey(a)[1], DevKey(b)[0], DevKey(b)[1]);
  }

  /** Version.Compare computes the order of the keys. */
  method Compare(a: Version, b: Version) returns (c: int)
    ensures c == Order(a, b)
  {
    KeyParts(a, b);
    c := CompareInt(a.epoch, b.epoch);
    if c != 0 { return; }
    c := CompareRelease(a.release, b.release);
    if c != 0 { return; }
    c := ComparePre(a, b);
    if c != 0 { return; }
    c := CompareOptional(a.hasPost, a.postNum, b.hasPost, b.postNum, -1);
    if c != 0 { return; }
    c := CompareOptional(a.hasDev, a.devNum, b.hasDev, b.devNum, 1);
    if c != 0 { return; }
    c := CompareLocal(a.local, b.local);
  }
}
