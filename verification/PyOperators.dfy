/** What the version operators mean, as laws about constraint texts, the versions they
    accept and the order of versions. */
module PyOperators {
  import opened Common
  import opened Orders
  import opened Text
  import opened PyVersion
  import opened PyConstraint
  import opened PyResolve
  import opened PyOrder

  /** A text that stands for one version wherever a constraint may name one. */
  ghost predicate VersionText(parse: Parser, x: string) {
    parse(x).Some? && Trimmed(x) && ',' !in x && !HasSuffix(x, ".*")
  }

  ghost function VersionOf(parse: Parser, x: string): Version
    requires parse(x).Some?
  {
    parse(x).value
  }

  function Public(v: Version): Version {
    v.(local := [])
  }

  /** The candidate is one of the versions that a local label makes of `x`. */
  predicate LabelOf(candidate: Version, x: Version) {
    x.local == [] && candidate.local != [] && Order(Public(candidate), x) == 0
  }

  // ------------------------------------------------------------------- from the text

  function PlainClause(op: Operator, x: string, v: Version): Clause {
    Clause(op, x, v, 0, [])
  }

  lemma ClauseOfText(parse: Parser, op: Operator, x: string, alone: bool)
    requires GoodParser(parse) && VersionText(parse, x) && op != Arbitrary && (op == Compatible ==> TwoSegments(x))
    ensures ParseClause(parse, Symbol(op) + x, alone) == Ok(PlainClause(op, x, VersionOf(parse, x)))
    ensures Parsed(parse, PlainClause(op, x, VersionOf(parse, x)), alone)
  {
    SplitRendered(op, x);
    TrimKeepsTrimmed(Symbol(op) + x);
  }

  lemma ParsesTo(parse: Parser, op: Operator, x: string)
    requires GoodParser(parse) && VersionText(parse, x) && op != Arbitrary && (op == Compatible ==> TwoSegments(x))
    ensures ParseConstraint(parse, Symbol(op) + x) == Ok([PlainClause(op, x, VersionOf(parse, x))])
  {
    var c := PlainClause(op, x, VersionOf(parse, x));
    ClauseOfText(parse, op, x, true);
    RenderedParses(parse, [c]);
    assert RenderAll([c]) == [Symbol(op) + x];
  }

  lemma PairParsesTo(parse: Parser, op: Operator, x: string, op': Operator, y: string)
    requires GoodParser(parse) && VersionText(parse, x) && op != Arbitrary && op != Compatible
    requires VersionText(parse, y) && op' != Arbitrary && op' != Compatible
    ensures ParseConstraint(parse, Symbol(op) + x + "," + (Symbol(op') + y)) ==
            Ok([PlainClause(op, x, VersionOf(parse, x)), PlainClause(op', y, VersionOf(parse, y))])
  {
    var c, d := PlainClause(op, x, VersionOf(parse, x)), PlainClause(op', y, VersionOf(parse, y));
    ClauseOfText(parse, op, x, false);
    ClauseOfText(parse, op', y, false);
    assert AllParsed(parse, [c, d], false);
    RenderedParses(parse, [c, d]);
    PairText(c, d);
  }

  lemma PairText(c: Clause, d: Clause)
    ensures Join(RenderAll([c, d]), ',') == Render(c) + "," + Render(d)
  {
    assert [c, d][1..] == [d] && [d][1..] == [];
    assert RenderAll([d]) == [Render(d)];
    assert RenderAll([c, d]) == [Render(c), Render(d)];
    assert [Render(c), Render(d)][1..] == [Render(d)];
  }

  lemma AcceptsOne(parse: Parser, op: Operator, x: string, r: string)
    requires GoodParser(parse) && VersionText(parse, x) && op != Arbitrary && (op == Compatible ==> TwoSegments(x))
    ensures var c := PlainClause(op, x, VersionOf(parse, x));
            Usable(c) && (AcceptsVersion(parse, Symbol(op) + x, r) <==>
                          parse(r).Some? && Satisfies(VersionOf(parse, r), r, c))
  {
    ParsesTo(parse, op, x);
    var c := PlainClause(op, x, VersionOf(parse, x));
    ConstraintUsable(parse, Symbol(op) + x);
    assert c in [c];
  }

  // ----------------------------------------------------------------------- the order

  lemma PublicOrder(r: Version, s: Version)
    ensures Order(Public(r), r) <= 0 && (r.local == [] ==> Public(r) == r)
    ensures Order(r, s) <= 0 ==> Order(Public(r), Public(s)) <= 0
    ensures Order(Public(r), Public(s)) < 0 ==> Order(r, s) < 0
  {
    KeyParts(Public(r), r);
    KeyParts(r, s);
    KeyParts(Public(r), Public(s));
    LexZero(Strip(r.release), Strip(r.release));
    if r.local != [] {
      LeftOver([], r.local);
    }
  }

  /** Against a version without a local label, the label of a candidate can only make it
      larger, and never takes it past another release. */
  lemma SpecifierFacts(r: Version, x: Version)
    ensures Order(r, x) < 0 <==> SpecifierOrder(r, x) < 0
    ensures Order(r, x) > 0 && !LabelOf(r, x) <==> SpecifierOrder(r, x) > 0
    ensures Order(r, x) == 0 || LabelOf(r, x) <==> SpecifierOrder(r, x) == 0
    ensures LabelOf(r, x) ==> Order(r, x) > 0
  {
    if x.local == [] {
      PublicOrder(r, x);
      PublicOrder(x, r);
      OrderIsTotal(r, x, x);
      OrderIsTotal(Public(r), x, x);
      OrderIsPep440(Public(r), x);
      OrderIsPep440(r, x);
      if r.local != [] {
        assert LocalBeforeAt([], r.local, 0);
        OrderIsPep440(x, r);
      }
    }
  }

  /** The release numbers of both agree, up to trailing zeros. */
  ghost predicate SameNumbers(a: Version, b: Version) {
    a.epoch == b.epoch && Agree(a.release, b.release)
  }

  lemma SameNumbersMeans(a: Version, b: Version)
    ensures SameRelease(a, b) <==> SameNumbers(a, b)
  {
    ReleaseMeans(a.release, b.release);
    LexZero(Strip(a.release), Strip(b.release));
  }

  // ------------------------------------------------------------------------ the laws

  /** `>=x` takes x, nothing below it and everything above what it takes; hence exactly the
      versions from x on. */
  lemma AtLeastLaw(parse: Parser, x: string)
    requires GoodParser(parse) && VersionText(parse, x)
    ensures AcceptsVersion(parse, ">=" + x, x)
    ensures forall r | parse(r).Some? :: Order(VersionOf(parse, r), VersionOf(parse, x)) < 0 ==>
              !AcceptsVersion(parse, ">=" + x, r)
    ensures forall r, s | parse(r).Some? && parse(s).Some? ::
              AcceptsVersion(parse, ">=" + x, r) && Order(VersionOf(parse, r), VersionOf(parse, s)) <= 0 ==>
                AcceptsVersion(parse, ">=" + x, s)
  {
    var v := VersionOf(parse, x);
    forall r | parse(r).Some?
      ensures AcceptsVersion(parse, ">=" + x, r) <==> Order(VersionOf(parse, r), v) >= 0
    {
      AcceptsOne(parse, AtLeast, x, r);
      SpecifierFacts(VersionOf(parse, r), v);
    }
    OrderIsTotal(v, v, v);
    forall r, s | parse(r).Some? && parse(s).Some? && Order(VersionOf(parse, r), v) >= 0
        && Order(VersionOf(parse, r), VersionOf(parse, s)) <= 0
      ensures Order(VersionOf(parse, s), v) >= 0
    {
      OrderIsTotal(v, VersionOf(parse, r), VersionOf(parse, s));
      OrderIsTotal(VersionOf(parse, s), v, v);
    }
  }

  /** `<=x` takes x, everything below what it takes, and above x nothing but x with a
      local label. */
  lemma AtMostLaw(parse: Parser, x: string)
    requires GoodParser(parse) && VersionText(parse, x)
    ensures AcceptsVersion(parse, "<=" + x, x)
    ensures forall r | parse(r).Some? :: Order(VersionOf(parse, r), VersionOf(parse, x)) > 0 ==>
              (AcceptsVersion(parse, "<=" + x, r) <==> LabelOf(VersionOf(parse, r), VersionOf(parse, x)))
    ensures forall r, s | parse(r).Some? && parse(s).Some? ::
              AcceptsVersion(parse, "<=" + x, r) && Order(VersionOf(parse, s), VersionOf(parse, r)) <= 0 ==>
                AcceptsVersion(parse, "<=" + x, s)
  {
    var v := VersionOf(parse, x);
    forall r | parse(r).Some?
      ensures AcceptsVersion(parse, "<=" + x, r) <==>
              Order(VersionOf(parse, r), v) <= 0 || LabelOf(VersionOf(parse, r), v)
    {
      AcceptsOne(parse, AtMost, x, r);
      SpecifierFacts(VersionOf(parse, r), v);
    }
    OrderIsTotal(v, v, v);
    forall r, s | parse(r).Some? && parse(s).Some? && AcceptsVersion(parse, "<=" + x, r)
        && Order(VersionOf(parse, s), VersionOf(parse, r)) <= 0
      ensures AcceptsVersion(parse, "<=" + x, s)
    {
      AtMostClosed(VersionOf(parse, s), VersionOf(parse, r), v);
    }
  }

  lemma AtMostClosed(s: Version, r: Version, x: Version)
    requires (Order(r, x) <= 0 || LabelOf(r, x)) && Order(s, r) <= 0
    ensures Order(s, x) <= 0 || LabelOf(s, x)
  {
    SpecifierFacts(r, x);
    SpecifierFacts(s, x);
    PublicOrder(s, r);
    OrderIsTotal(s, r, x);
    OrderIsTotal(Public(s), Public(r), x);
  }

  /** `<x` takes only versions below x, and all of them except, unless x itself is a
      prerelease, the prereleases and development releases of the release of x. */
  lemma BelowLaw(parse: Parser, x: string, r: string)
    requires GoodParser(parse) && VersionText(parse, x) && parse(r).Some?
    ensures var v, w := VersionOf(parse, x), VersionOf(parse, r);
            AcceptsVersion(parse, "<" + x, r) <==>
            Order(w, v) < 0 && !(!v.hasPre && SameNumbers(w, v) && (w.hasPre || w.hasDev))
  {
    AcceptsOne(parse, Below, x, r);
    SpecifierFacts(VersionOf(parse, r), VersionOf(parse, x));
    SameNumbersMeans(VersionOf(parse, r), VersionOf(parse, x));
  }

  /** `>x` takes only versions above x, and all of them except x with a local label and,
      unless x itself is a post-release, the post-releases of the release of x. */
  lemma AboveLaw(parse: Parser, x: string, r: string)
    requires GoodParser(parse) && VersionText(parse, x) && parse(r).Some?
    ensures var v, w := VersionOf(parse, x), VersionOf(parse, r);
            AcceptsVersion(parse, ">" + x, r) <==>
            Order(w, v) > 0 && !LabelOf(w, v) && !(!v.hasPost && SameNumbers(w, v) && w.hasPost)
  {
    AcceptsOne(parse, Above, x, r);
    SpecifierFacts(VersionOf(parse, r), VersionOf(parse, x));
    SameNumbersMeans(VersionOf(parse, r), VersionOf(parse, x));
  }

  /** `==x` takes what compares equal to x and, if x has no local label, x with one; `!=x`
      takes all other versions. */
  lemma EqualLaw(parse: Parser, x: string, r: string)
    requires GoodParser(parse) && VersionText(parse, x) && parse(r).Some?
    ensures AcceptsVersion(parse, "==" + x, r) <==>
            Order(VersionOf(parse, r), VersionOf(parse, x)) == 0 || LabelOf(VersionOf(parse, r), VersionOf(parse, x))
    ensures AcceptsVersion(parse, "!=" + x, r) <==> !AcceptsVersion(parse, "==" + x, r)
  {
    AcceptsOne(parse, Equal, x, r);
    AcceptsOne(parse, NotEqual, x, r);
    SpecifierFacts(VersionOf(parse, r), VersionOf(parse, x));
  }

  /** The two bounds together leave what `==x` takes. */
  lemma BothBounds(parse: Parser, x: string, r: string)
    requires GoodParser(parse) && VersionText(parse, x)
    ensures AcceptsVersion(parse, ">=" + x + "," + ("<=" + x), r) <==> AcceptsVersion(parse, "==" + x, r)
  {
    PairParsesTo(parse, AtLeast, x, AtMost, x);
    AcceptsOne(parse, Equal, x, r);
    ConstraintUsable(parse, ">=" + x + "," + ("<=" + x));
    var c, d := PlainClause(AtLeast, x, VersionOf(parse, x)), PlainClause(AtMost, x, VersionOf(parse, x));
    assert forall e <- [c, d] :: e == c || e == d;
    assert [c, d][0] in [c, d] && [c, d][1] in [c, d];
  }

  /** `~=x` takes what `>=x` takes among the versions of the epoch of x that share all but
      its last release number. */
  lemma CompatibleLaw(parse: Parser, x: string, r: string)
    requires GoodParser(parse) && VersionText(parse, x) && TwoSegments(x) && parse(r).Some?
    ensures var v, w := VersionOf(parse, x), VersionOf(parse, r);
            var shared := if |v.release| == 1 then 1 else |v.release| - 1;
            AcceptsVersion(parse, "~=" + x, r) <==>
            && AcceptsVersion(parse, ">=" + x, r) && w.epoch == v.epoch
            && shared <= |w.release| && w.release[..shared] == v.release[..shared]
  {
    AcceptsOne(parse, Compatible, x, r);
    AcceptsOne(parse, AtLeast, x, r);
    SharedNumbers(VersionOf(parse, r), VersionOf(parse, x));
  }

  lemma SharedNumbers(w: Version, v: Version)
    requires |v.release| >= 1
    ensures var shared := if |v.release| == 1 then 1 else |v.release| - 1;
            CompatiblePrefix(w, v) <==>
            w.epoch == v.epoch && shared <= |w.release| && w.release[..shared] == v.release[..shared]
  {
    var shared := if |v.release| == 1 then 1 else |v.release| - 1;
    if shared <= |w.release| {
      assert forall i :: 0 <= i < shared ==> w.release[..shared][i] == w.release[i];
      assert forall i :: 0 <= i < shared ==> v.release[..shared][i] == v.release[i];
    }
  }

  /** A candidate is judged without its local label where the constraint names none. */
  lemma LabelsIgnored(parse: Parser, op: Operator, x: string, r: string, s: string)
    requires GoodParser(parse) && VersionText(parse, x) && op != Arbitrary && (op == Compatible ==> TwoSegments(x))
    requires VersionOf(parse, x).local == [] && parse(r).Some? && parse(s).Some?
    requires Public(VersionOf(parse, r)) == VersionOf(parse, s).(raw := VersionOf(parse, r).raw)
    ensures AcceptsVersion(parse, Symbol(op) + x, r) <==> AcceptsVersion(parse, Symbol(op) + x, s)
  {
    AcceptsOne(parse, op, x, r);
    AcceptsOne(parse, op, x, s);
    var w := VersionOf(parse, s);
    assert Key(Public(VersionOf(parse, r))) == Key(w) && Public(w) == w;
  }

  // ------------------------------------------------------------------------ wildcards

  function WildcardText(epoch: Option<string>, parts: seq<string>): string {
    (if epoch.Some? then epoch.value + ['!'] else "") + Join(parts, '.') + ".*"
  }

  /** The parts are the numbers, as written. */
  ghost predicate Writes(epoch: Option<string>, parts: seq<string>, e: int, ns: seq<int>) {
    && |parts| == |ns| > 0 && (forall i :: 0 <= i < |parts| ==> Plain(parts[i]) && Atoi(parts[i]) == Some(ns[i]))
    && if epoch.Some? then Plain(epoch.value) && Atoi(epoch.value) == Some(e) else e == 0
  }

  predicate Plain(s: string) {
    s != "" && forall c <- s :: IsDigit(c)
  }

  lemma PlainLacks(s: string, c: char)
    requires Plain(s) && !IsDigit(c)
    ensures c !in s && s[0] in s && s[|s| - 1] in s
  {
  }

  lemma {:induction false} NumbersOf(parts: seq<string>, ns: seq<int>)
    requires |parts| == |ns| && forall i :: 0 <= i < |parts| ==> Atoi(parts[i]) == Some(ns[i])
    ensures Numbers(parts) == Some(ns)
    decreases |parts|
  {
    if parts != [] {
      NumbersOf(parts[1..], ns[1..]);
      assert ns == [ns[0]] + ns[1..];
    }
  }

  lemma {:induction false} JoinedDigits(parts: seq<string>)
    requires parts != [] && forall p <- parts :: Plain(p)
    ensures Join(parts, '.') != "" && IsDigit(Join(parts, '.')[0])
    ensures forall c <- Join(parts, '.') :: IsDigit(c) || c == '.'
    decreases |parts|
  {
    assert parts[0] in parts;
    PlainLacks(parts[0], '.');
    if |parts| > 1 {
      JoinedDigits(parts[1..]);
    }
  }

  lemma WildcardSplits(epoch: Option<string>, parts: seq<string>, e: int, ns: seq<int>)
    requires Writes(epoch, parts, e, ns)
    ensures var s := WildcardText(epoch, parts); var text := s[..|s| - 2];
            && HasSuffix(s, ".*") && ',' !in s && Trimmed(s) && s[0] != '='
            && Split(text, '!') == (if epoch.Some? then [epoch.value, Join(parts, '.')] else [Join(parts, '.')])
            && (epoch.None? ==> text == Join(parts, '.'))
  {
    var s, joined := WildcardText(epoch, parts), Join(parts, '.');
    forall p <- parts ensures Plain(p) {
    }
    JoinedDigits(parts);
    SplitNone(joined, '!');
    if epoch.Some? {
      PlainLacks(epoch.value, '!');
      SplitFirst(epoch.value, joined, '!');
      assert s[..|s| - 2] == epoch.value + ['!'] + joined;
    } else {
      assert s[..|s| - 2] == joined;
    }
  }

  lemma WildcardNumbers(op: Operator, epoch: Option<string>, parts: seq<string>, e: int, ns: seq<int>)
    requires Writes(epoch, parts, e, ns) && (op == Equal || op == NotEqual)
    ensures var s := WildcardText(epoch, parts);
            HasSuffix(s, ".*") && ParseWildcard(op, s) == Ok(Clause(op, s, NO_VERSION, e, ns))
  {
    WildcardSplits(epoch, parts, e, ns);
    forall p <- parts ensures '.' !in p {
      PlainLacks(p, '.');
    }
    SplitJoin(parts, '.');
    NumbersOf(parts, ns);
  }

  lemma WildcardIsParsed(parse: Parser, op: Operator, s: string, c: Clause)
    requires (op == Equal || op == NotEqual) && HasSuffix(s, ".*") && ParseWildcard(op, s) == Ok(c)
    requires Trimmed(s) && ',' !in s && s[0] != '='
    ensures c.op == op && c.value == s && Parsed(parse, c, true)
  {
    SplitRendered(op, s);
    TrimKeepsTrimmed(Symbol(op) + s);
  }

  lemma WildcardParses(parse: Parser, op: Operator, epoch: Option<string>, parts: seq<string>, e: int, ns: seq<int>)
    requires Writes(epoch, parts, e, ns) && (op == Equal || op == NotEqual)
    ensures var s := WildcardText(epoch, parts);
            ParseConstraint(parse, Symbol(op) + s) == Ok([Clause(op, s, NO_VERSION, e, ns)])
  {
    var s := WildcardText(epoch, parts);
    var c := Clause(op, s, NO_VERSION, e, ns);
    WildcardSplits(epoch, parts, e, ns);
    WildcardNumbers(op, epoch, parts, e, ns);
    WildcardIsParsed(parse, op, s, c);
    RenderedParses(parse, [c]);
    assert RenderAll([c]) == [Symbol(op) + s];
  }

  /** `==e!n.m.*` takes the versions of the epoch whose release starts with the numbers as
      they stand, without padding; `!=` takes all others. */
  lemma WildcardLaw(parse: Parser, epoch: Option<string>, parts: seq<string>, e: int, ns: seq<int>, r: string)
    requires GoodParser(parse) && Writes(epoch, parts, e, ns) && parse(r).Some?
    ensures var w := VersionOf(parse, r); var s := WildcardText(epoch, parts);
            && (AcceptsVersion(parse, "==" + s, r) <==> w.epoch == e && ns <= w.release)
            && (AcceptsVersion(parse, "!=" + s, r) <==> !AcceptsVersion(parse, "==" + s, r))
  {
    var s := WildcardText(epoch, parts);
    WildcardParses(parse, Equal, epoch, parts, e, ns);
    WildcardParses(parse, NotEqual, epoch, parts, e, ns);
    ConstraintUsable(parse, "==" + s);
    ConstraintUsable(parse, "!=" + s);
    var c, d := Clause(Equal, s, NO_VERSION, e, ns), Clause(NotEqual, s, NO_VERSION, e, ns);
    assert c in [c] && d in [d];
    PrefixMeans(VersionOf(parse, r), e, ns);
  }

  lemma PrefixMeans(w: Version, e: int, ns: seq<int>)
    ensures PrefixMatches(w, e, ns) <==> w.epoch == e && ns <= w.release
  {
  }

  // ----------------------------------------------------------------------- resolution

  ghost predicate Listed(parse: Parser, text: string, available: seq<string>, raw: string)
    requires GoodParser(parse)
  {
    raw in available && AcceptsVersion(parse, text, raw)
  }

  ghost predicate IsStable(parse: Parser, raw: string) {
    parse(raw).Some? && !parse(raw).value.hasPre && !parse(raw).value.hasDev
  }

  ghost predicate NamesPrerelease(clauses: seq<Clause>) {
    exists i :: 0 <= i < |clauses| && (clauses[i].version.hasPre || clauses[i].version.hasDev)
  }

  /** A constraint other than `===` fails exactly when it accepts nothing that is listed.
      Its answer is listed and accepted. Prereleases stand back unless a clause names one or
      no stable version is accepted; of the others none that is accepted is higher. */
  lemma Resolution(parse: Parser, text: string, available: seq<string>, out: Result<string, ConstraintError>)
    requires GoodParser(parse) && ParseConstraint(parse, text).Ok? && !Exact(ParseConstraint(parse, text).value)
    requires (ConstraintUsable(parse, text); Resolves(parse, ParseConstraint(parse, text).value, available, out))
    ensures out.Err? <==> forall raw <- available :: !AcceptsVersion(parse, text, raw)
    ensures out.Ok? ==>
              var named := NamesPrerelease(ParseConstraint(parse, text).value);
              var stable := exists raw :: Listed(parse, text, available, raw) && IsStable(parse, raw);
              && Listed(parse, text, available, out.value)
              && (stable && !named ==> IsStable(parse, out.value))
              && forall raw | Listed(parse, text, available, raw) ::
                   IsStable(parse, raw) || named || !stable ==>
                     Order(VersionOf(parse, raw), VersionOf(parse, out.value)) <= 0
  {
    ConstraintUsable(parse, text);
    var clauses := ParseConstraint(parse, text).value;
    assert NamesPrerelease(clauses) <==> PermitsPrerelease(clauses) by {
      if PermitsPrerelease(clauses) {
        var c :| c in clauses && (c.version.hasPre || c.version.hasDev);
        var i :| 0 <= i < |clauses| && clauses[i] == c;
      }
    }
    assert forall raw :: AcceptsVersion(parse, text, raw) <==> Matches(parse, clauses, raw);
    forall raw <- available | StableMatch(parse, clauses, raw)
      ensures Listed(parse, text, available, raw) && IsStable(parse, raw)
    {
    }
  }
}
