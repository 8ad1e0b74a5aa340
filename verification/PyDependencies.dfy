/** Merging the requirements of a Python project into one constraint per package. */
module PyDependencies {
  import opened Common
  import opened Orders
  import opened Text
  import opened PyVersion
  import opened PyConstraint
  import opened PyResolve

  datatype Requirement = Requirement(name: string, constraint: string, active: bool)

  datatype Dependency = Dependency(name: string, versionRange: string)

  // ------------------------------------------------------------------- specification

  predicate StringLess(a: string, b: string) {
    StringCompare(a, b) < 0
  }

  lemma StringLessIsStrict()
    ensures StrictOrder(StringLess)
  {
    forall x, y ensures !(StringLess(x, y) && StringLess(y, x)) && (StringLess(x, y) || x == y || StringLess(y, x)) {
      StringOrder(x, y);
    }
    forall x, y, z | StringLess(x, y) && StringLess(y, z) ensures StringLess(x, z) {
      StringTransitive(x, y, z);
    }
  }

  ghost function ActiveNames(requirements: seq<Requirement>): set<string> {
    set r <- requirements | r.active :: r.name
  }

  /** The distinct texts that the active requirements of a package ask for. */
  ghost function Wanted(requirements: seq<Requirement>, name: string): set<string> {
    set r <- requirements | r.active && r.name == name && Trim(r.constraint) != "" :: Trim(r.constraint)
  }

  /** The comma-joined, sorted enumeration of a set of texts. */
  ghost predicate JoinsSorted(text: string, texts: set<string>) {
    exists values: seq<string> {:trigger Enumerates(values, texts)} ::
      StrictlySorted(StringLess, values) && Enumerates(values, texts) && text == Join(values, ',')
  }

  function Names(deps: seq<Dependency>): seq<string> {
    seq(|deps|, i requires 0 <= i < |deps| => deps[i].name)
  }

  /** One dependency per active package, in the order of the names. */
  ghost predicate Merges(requirements: seq<Requirement>, deps: seq<Dependency>) {
    && StrictlySorted(StringLess, Names(deps))
    && Enumerates(Names(deps), ActiveNames(requirements))
    && forall d <- deps :: JoinsSorted(d.versionRange, Wanted(requirements, d.name))
  }

  /** The result depends only on which requirements there are, not on their order. */
  lemma MergeIsUnique(a: seq<Requirement>, b: seq<Requirement>, left: seq<Dependency>, right: seq<Dependency>)
    requires (forall r :: r in a <==> r in b) && Merges(a, left) && Merges(b, right)
    ensures left == right
  {
    StringLessIsStrict();
    assert ActiveNames(a) == ActiveNames(b);
    SortedUnique(StringLess, Names(left), Names(right), ActiveNames(a));
    assert |left| == |Names(left)| == |Names(right)| == |right|;
    forall i | 0 <= i < |left| ensures left[i] == right[i] {
      assert left[i].name == Names(left)[i] == Names(right)[i] == right[i].name;
      var name := left[i].name;
      assert left[i] in left && right[i] in right;
      assert Wanted(a, name) == Wanted(b, name);
      JoinIsUnique(left[i].versionRange, right[i].versionRange, Wanted(a, name));
    }
  }

  /** The packages are those of the active requirements, once each and in dictionary
      order. */
  lemma MergedByName(requirements: seq<Requirement>, deps: seq<Dependency>, name: string)
    requires Merges(requirements, deps)
    ensures (exists d <- deps :: d.name == name) <==> exists r <- requirements :: r.active && r.name == name
    ensures forall i, j :: 0 <= i < j < |deps| ==> TextPrecedes(deps[i].name, deps[j].name)
  {
    forall i, j | 0 <= i < j < |deps| ensures TextPrecedes(deps[i].name, deps[j].name) {
      assert StringLess(Names(deps)[i], Names(deps)[j]);
      StringCompareMeans(deps[i].name, deps[j].name);
    }
    if d :| d in deps && d.name == name {
      var i :| 0 <= i < |deps| && deps[i] == d;
      assert Names(deps)[i] == name;
      assert name in ActiveNames(requirements);
    }
    if r :| r in requirements && r.active && r.name == name {
      assert name in ActiveNames(requirements) && name in Names(deps);
      var i :| 0 <= i < |Names(deps)| && Names(deps)[i] == name;
      assert deps[i] in deps;
    }
  }

  lemma JoinIsUnique(x: string, y: string, texts: set<string>)
    requires JoinsSorted(x, texts) && JoinsSorted(y, texts)
    ensures x == y
  {
    StringLessIsStrict();
    var v: seq<string> :| StrictlySorted(StringLess, v) && Enumerates(v, texts) && x == Join(v, ',');
    var w: seq<string> :| StrictlySorted(StringLess, w) && Enumerates(w, texts) && y == Join(w, ',');
    SortedUnique(StringLess, v, w, texts);
  }

  // --------------------------------------------------------------------------- loops

  predicate Distinct<T(==)>(s: seq<T>) {
    forall i, j :: 0 <= i < j < |s| ==> s[i] != s[j]
  }

  /** What the map holds after the given requirements. */
  ghost predicate Gathered(requirements: seq<Requirement>, constraints: map<string, seq<string>>) {
    && constraints.Keys == ActiveNames(requirements)
    && forall name <- constraints ::
         Distinct(constraints[name]) && Enumerates(constraints[name], Wanted(requirements, name))
  }

  method Gather(requirements: seq<Requirement>) returns (constraints: map<string, seq<string>>)
    ensures Gathered(requirements, constraints)
  {
    constraints := map[];
    for i := 0 to |requirements|
      invariant Gathered(requirements[..i], constraints)
    {
      var r := requirements[i];
      assert requirements[..i + 1] == requirements[..i] + [r];
      ghost var before := constraints;
      if r.active {
        var constraint := Trim(r.constraint);
        var values := if r.name in constraints then constraints[r.name] else [];
        if constraint != "" && constraint !in values {
          constraints := constraints[r.name := values + [constraint]];
        } else if r.name !in constraints {
          constraints := constraints[r.name := []];
        }
      }
      GatherStep(requirements[..i], r, before, constraints);
    }
    assert requirements[..|requirements|] == requirements;
  }

  /** How one more requirement changes the list of one package. */
  lemma GatherName(seen: seq<Requirement>, r: Requirement, name: string, values: seq<string>)
    requires Distinct(values) && Enumerates(values, Wanted(seen, name))
    ensures var text := Trim(r.constraint);
            var after := if r.active && r.name == name && text != "" && text !in values
                         then values + [text] else values;
            Distinct(after) && Enumerates(after, Wanted(seen + [r], name))
  {
    var text := Trim(r.constraint);
    assert Wanted(seen + [r], name) ==
           Wanted(seen, name) + (if r.active && r.name == name && text != "" then {text} else {});
  }

  lemma GatherStep(
    seen: seq<Requirement>, r: Requirement, before: map<string, seq<string>>, after: map<string, seq<string>>)
    requires Gathered(seen, before)
    requires var text := Trim(r.constraint);
             var values := if r.name in before then before[r.name] else [];
             after == if !r.active then before
                      else if text != "" && text !in values then before[r.name := values + [text]]
                      else if r.name !in before then before[r.name := []]
                      else before
    ensures Gathered(seen + [r], after)
  {
    var all := seen + [r];
    assert ActiveNames(all) == ActiveNames(seen) + (if r.active then {r.name} else {});
    forall name <- after ensures Distinct(after[name]) && Enumerates(after[name], Wanted(all, name)) {
      if name !in before {
        assert name !in ActiveNames(seen);
        assert Wanted(seen, name) == {};
      }
      GatherName(seen, r, name, if name in before then before[name] else []);
    }
  }

  function TextOrder(): ((string, string) -> int) {
    (a: string, b: string) => StringCompare(a, b)
  }

  lemma TextOrderIsTotal()
    ensures TotalPreorder(TextOrder())
  {
    var cmp := TextOrder();
    forall x, y, z ensures Comparable(cmp, x, y, z) {
      StringOrder(x, y);
      if cmp(x, y) <= 0 && cmp(y, z) <= 0 {
        StringTransitive(x, y, z);
      }
    }
  }

  function DependencyOrder(): ((Dependency, Dependency) -> int) {
    (a: Dependency, b: Dependency) =>
      if a.name == b.name then StringCompare(a.versionRange, b.versionRange) else StringCompare(a.name, b.name)
  }

  lemma DependencyOrderIsTotal()
    ensures TotalPreorder(DependencyOrder())
  {
    var cmp := DependencyOrder();
    forall x, y, z ensures Comparable(cmp, x, y, z) {
      StringOrder(x.name, y.name);
      StringOrder(y.name, z.name);
      StringOrder(x.versionRange, y.versionRange);
      if cmp(x, y) <= 0 && cmp(y, z) <= 0 {
        if x.name == y.name == z.name {
          StringTransitive(x.versionRange, y.versionRange, z.versionRange);
        } else {
          StringOrder(x.name, x.name);
          StringTransitive(x.name, y.name, z.name);
        }
      }
    }
  }

  lemma SameElements<T>(a: seq<T>, b: seq<T>)
    requires multiset(a) == multiset(b)
    ensures |a| == |b| && forall x :: x in a <==> x in b
  {
    assert |multiset(a)| == |multiset(b)|;
    forall x ensures x in a <==> x in b {
      assert x in a <==> x in multiset(a);
      assert x in b <==> x in multiset(b);
    }
  }

  lemma {:induction false} DistinctCounts<T>(s: seq<T>, x: T)
    requires Distinct(s)
    ensures multiset(s)[x] <= 1
    decreases |s|
  {
    if s != [] {
      assert s == [s[0]] + s[1..];
      assert Distinct(s[1..]);
      DistinctCounts(s[1..], x);
      assert s[0] !in s[1..];
      assert multiset(s[1..])[s[0]] == 0;
    }
  }

  lemma PermutedDistinct<T>(a: seq<T>, b: seq<T>)
    requires Distinct(a) && multiset(a) == multiset(b)
    ensures Distinct(b)
  {
    forall i, j | 0 <= i < j < |b| ensures b[i] != b[j] {
      DistinctCounts(a, b[i]);
      assert b == b[..j] + [b[j]] + b[j + 1..];
      assert b[i] == b[..j][i] && b[i] in b[..j];
    }
  }

  /** Sorting a duplicate-free list of texts. */
  method SortTexts(values: seq<string>, ghost texts: set<string>) returns (r: seq<string>)
    requires Distinct(values) && Enumerates(values, texts)
    ensures StrictlySorted(StringLess, r) && Enumerates(r, texts)
  {
    TextOrderIsTotal();
    r := SortBy(TextOrder(), values);
    SameElements(r, values);
    PermutedDistinct(values, r);
    forall i, j | 0 <= i < j < |r| ensures StringLess(r[i], r[j]) {
      assert TextOrder()(r[i], r[j]) <= 0;
      StringOrder(r[i], r[j]);
    }
    forall i | 0 <= i < |r| ensures r[i] in texts {
      assert r[i] in values;
    }
  }

  /** The dependencies made from some of the names, in whatever order they came. */
  ghost predicate Made(requirements: seq<Requirement>, done: set<string>, deps: seq<Dependency>) {
    && Distinct(Names(deps)) && Enumerates(Names(deps), done)
    && forall d <- deps :: JoinsSorted(d.versionRange, Wanted(requirements, d.name))
  }

  lemma MadeStep(requirements: seq<Requirement>, done: set<string>, deps: seq<Dependency>, d: Dependency)
    requires Made(requirements, done, deps) && d.name !in done
    requires JoinsSorted(d.versionRange, Wanted(requirements, d.name))
    ensures Made(requirements, done + {d.name}, deps + [d])
  {
    assert Names(deps + [d]) == Names(deps) + [d.name];
  }

  lemma NameIn(deps: seq<Dependency>, d: Dependency)
    requires d in deps
    ensures d.name in Names(deps)
  {
    var k :| 0 <= k < |deps| && deps[k] == d;
    assert Names(deps)[k] == d.name;
  }

  lemma DistinctNames(deps: seq<Dependency>, a: Dependency, b: Dependency)
    requires Distinct(Names(deps)) && a in deps && b in deps && a.name == b.name
    ensures a == b
  {
    var k :| 0 <= k < |deps| && deps[k] == a;
    var l :| 0 <= l < |deps| && deps[l] == b;
    assert Names(deps)[k] == Names(deps)[l];
  }

  lemma SortedNames(made: seq<Dependency>, sorted: seq<Dependency>)
    requires Distinct(Names(made)) && SortedBy(DependencyOrder(), sorted) && multiset(sorted) == multiset(made)
    ensures StrictlySorted(StringLess, Names(sorted))
  {
    SameElements(sorted, made);
    assert Distinct(made) by {
      forall i, j | 0 <= i < j < |made| ensures made[i] != made[j] {
        assert Names(made)[i] != Names(made)[j];
      }
    }
    PermutedDistinct(made, sorted);
    forall i, j | 0 <= i < j < |sorted| ensures StringLess(sorted[i].name, sorted[j].name) {
      if sorted[i].name == sorted[j].name {
        DistinctNames(made, sorted[i], sorted[j]);
      }
      assert DependencyOrder()(sorted[i], sorted[j]) <= 0;
      StringOrder(sorted[i].name, sorted[j].name);
    }
  }

  lemma SameNames(made: seq<Dependency>, sorted: seq<Dependency>, names: set<string>)
    requires Enumerates(Names(made), names) && forall d :: d in made <==> d in sorted
    ensures Enumerates(Names(sorted), names)
  {
    forall i | 0 <= i < |sorted| ensures Names(sorted)[i] in names {
      assert sorted[i] in made;
      NameIn(made, sorted[i]);
    }
    forall name <- names ensures name in Names(sorted) {
      assert name in Names(made);
      var k :| 0 <= k < |made| && Names(made)[k] == name;
      NameIn(sorted, made[k]);
    }
  }

  lemma SortedMerges(requirements: seq<Requirement>, made: seq<Dependency>, sorted: seq<Dependency>)
    requires Made(requirements, ActiveNames(requirements), made)
    requires SortedBy(DependencyOrder(), sorted) && multiset(sorted) == multiset(made)
    ensures Merges(requirements, sorted)
  {
    SameElements(sorted, made);
    SortedNames(made, sorted);
    SameNames(made, sorted, ActiveNames(requirements));
  }

  /** pythonDependencies: one sorted, comma-joined constraint per active package. */
  method PythonDependencies(requirements: seq<Requirement>) returns (deps: seq<Dependency>)
    ensures Merges(requirements, deps)
  {
    var constraints := Gather(requirements);
    var todo := constraints.Keys;
    var made: seq<Dependency> := [];
    while todo != {}
      invariant todo <= constraints.Keys && Made(requirements, constraints.Keys - todo, made)
      decreases |todo|
    {
      var name :| name in todo;
      var values := SortTexts(constraints[name], Wanted(requirements, name));
      var d := Dependency(name, Join(values, ','));
      MadeStep(requirements, constraints.Keys - todo, made, d);
      made := made + [d];
      assert constraints.Keys - (todo - {name}) == constraints.Keys - todo + {name};
      todo := todo - {name};
    }
    assert constraints.Keys - todo == constraints.Keys;
    DependencyOrderIsTotal();
    deps := SortBy(DependencyOrder(), made);
    SortedMerges(requirements, made, deps);
  }

  // ----------------------------------------------------- what a merged constraint means

  /** A constraint as ParseRequirement stores it. */
  ghost predicate Normal(parse: Parser, text: string) {
    text != "" && Normalize(parse, text) == Ok(text)
  }

  ghost function ClausesOf(parse: Parser, text: string): seq<Clause>
    requires Normal(parse, text)
  {
    ParseConstraint(parse, text).value
  }

  ghost predicate AllNormal(parse: Parser, values: seq<string>) {
    forall v <- values :: Normal(parse, v)
  }

  ghost predicate Arbitrarily(parse: Parser, text: string)
    requires Normal(parse, text)
  {
    exists c <- ClausesOf(parse, text) :: c.op == Arbitrary
  }

  /** The clauses of several constraints, one after the other. */
  ghost function Merged(parse: Parser, values: seq<string>): seq<Clause>
    requires AllNormal(parse, values)
  {
    if values == [] then []
    else
      assert values[0] in values;
      ClausesOf(parse, values[0]) + Merged(parse, values[1..])
  }

  lemma {:induction false} RenderConcat(a: seq<Clause>, b: seq<Clause>)
    ensures RenderAll(a + b) == RenderAll(a) + RenderAll(b)
    decreases |a|
  {
    if a == [] {
      assert a + b == b;
    } else {
      assert (a + b)[0] == a[0] && (a + b)[1..] == a[1..] + b;
      RenderConcat(a[1..], b);
    }
  }

  lemma NormalHasClauses(parse: Parser, text: string)
    requires Normal(parse, text)
    ensures ClausesOf(parse, text) != [] && text == Join(RenderAll(ClausesOf(parse, text)), ',')
  {
  }

  lemma RenderLength(a: seq<Clause>)
    ensures |RenderAll(a)| == |a|
  {
  }

  /** Joining the texts renders all their clauses. */
  lemma {:induction false} MergedText(parse: Parser, values: seq<string>)
    requires values != [] && AllNormal(parse, values)
    ensures Merged(parse, values) != [] && Join(values, ',') == Join(RenderAll(Merged(parse, values)), ',')
    decreases |values|
  {
    assert values[0] in values;
    NormalHasClauses(parse, values[0]);
    var first, rest := ClausesOf(parse, values[0]), Merged(parse, values[1..]);
    if |values| == 1 {
      assert first + [] == first;
    } else {
      MergedText(parse, values[1..]);
      RenderConcat(first, rest);
      RenderLength(first);
      RenderLength(rest);
      JoinConcat(RenderAll(first), RenderAll(rest), ',');
    }
  }

  /** Merging keeps every clause and adds none. */
  lemma {:induction false} MergedClauses(parse: Parser, values: seq<string>)
    requires AllNormal(parse, values)
    ensures forall c :: c in Merged(parse, values) <==>
                        exists v <- values :: Normal(parse, v) && c in ClausesOf(parse, v)
    decreases |values|
  {
    if values != [] {
      assert values[0] in values;
      MergedClauses(parse, values[1..]);
      forall c
        ensures c in Merged(parse, values) <==> exists v <- values :: Normal(parse, v) && c in ClausesOf(parse, v) {
        if v :| v in values && Normal(parse, v) && c in ClausesOf(parse, v) {
          assert v == values[0] || v in values[1..];
        }
      }
    }
  }

  /** A clause other than arbitrary equality parses the same alone and in company. */
  lemma ParsedInCompany(parse: Parser, c: Clause, alone: bool, other: bool)
    requires Parsed(parse, c, alone) && c.op != Arbitrary
    ensures Parsed(parse, c, other)
  {
    SplitRendered(c.op, c.value);
    TrimKeepsTrimmed(Render(c));
  }

  ghost predicate ParsedSomehow(parse: Parser, c: Clause) {
    exists alone :: Parsed(parse, c, alone)
  }

  lemma ClausesAreParsed(parse: Parser, values: seq<string>, c: Clause)
    requires GoodParser(parse) && AllNormal(parse, values) && c in Merged(parse, values)
    ensures ParsedSomehow(parse, c)
  {
    MergedClauses(parse, values);
    var v :| v in values && Normal(parse, v) && c in ClausesOf(parse, v);
    ParsedConstraint(parse, v);
    assert Parsed(parse, c, |ClausesOf(parse, v)| == 1);
  }

  lemma MergedAreParsed(parse: Parser, values: seq<string>, alone: bool)
    requires GoodParser(parse) && AllNormal(parse, values)
    requires forall c <- Merged(parse, values) :: c.op != Arbitrary
    ensures AllParsed(parse, Merged(parse, values), alone)
  {
    forall c <- Merged(parse, values) ensures Parsed(parse, c, alone) {
      ClausesAreParsed(parse, values, c);
      var other :| Parsed(parse, c, other);
      ParsedInCompany(parse, c, other, alone);
    }
  }

  /** The merged text parses, and then to all the clauses, unless arbitrary equality
      would have to stand beside another constraint. */
  lemma MergedParses(parse: Parser, values: seq<string>)
    requires GoodParser(parse) && AllNormal(parse, values)
    requires |values| <= 1 || forall c <- Merged(parse, values) :: c.op != Arbitrary
    ensures ParseConstraint(parse, Join(values, ',')) == Ok(Merged(parse, values))
  {
    if |values| == 1 {
      OneParses(parse, values);
    } else if values != [] {
      var clauses := Merged(parse, values);
      MergedText(parse, values);
      MergedAreParsed(parse, values, |clauses| == 1);
      RenderedParses(parse, clauses);
    }
  }

  lemma OneParses(parse: Parser, values: seq<string>)
    requires AllNormal(parse, values) && |values| == 1
    ensures ParseConstraint(parse, Join(values, ',')) == Ok(Merged(parse, values))
  {
    var text := values[0];
    assert text in values && Normal(parse, text);
    assert values[1..] == [];
    assert Merged(parse, values) == ClausesOf(parse, text);
  }

  lemma {:induction false} PartsFail(parse: Parser, parts: seq<string>, bad: string)
    requires bad in parts && ParseClause(parse, bad, false).Err?
    ensures ParseParts(parse, parts, false).Err?
    decreases |parts|
  {
    if bad != parts[0] {
      assert bad in parts[1..];
      PartsFail(parse, parts[1..], bad);
    }
  }

  lemma {:induction false} RenderedIn(clauses: seq<Clause>, c: Clause)
    requires c in clauses
    ensures Render(c) in RenderAll(clauses)
    decreases |clauses|
  {
    if c != clauses[0] {
      assert c in clauses[1..];
      RenderedIn(clauses[1..], c);
    }
  }

  lemma {:induction false} RenderedTexts(parse: Parser, clauses: seq<Clause>)
    requires forall c <- clauses :: ParsedSomehow(parse, c)
    ensures forall p <- RenderAll(clauses) :: ',' !in p && p != "" && Trimmed(p)
    decreases |clauses|
  {
    if clauses != [] {
      var c := clauses[0];
      assert c in clauses;
      SplitRendered(c.op, c.value);
      RenderedText(c);
      assert forall d <- clauses[1..] :: d in clauses;
      RenderedTexts(parse, clauses[1..]);
    }
  }

  lemma {:induction false} MergedLength(parse: Parser, values: seq<string>)
    requires AllNormal(parse, values)
    ensures |Merged(parse, values)| >= |values|
    decreases |values|
  {
    if values != [] {
      assert values[0] in values;
      NormalHasClauses(parse, values[0]);
      MergedLength(parse, values[1..]);
    }
  }

  /** Arbitrary equality beside any other constraint makes the merged text an error. */
  lemma MergedFails(parse: Parser, values: seq<string>, bad: Clause)
    requires GoodParser(parse) && AllNormal(parse, values) && |values| >= 2
    requires bad in Merged(parse, values) && bad.op == Arbitrary
    ensures ParseConstraint(parse, Join(values, ',')).Err?
  {
    var clauses := Merged(parse, values);
    var parts := RenderAll(clauses);
    MergedText(parse, values);
    MergedLength(parse, values);
    RenderLength(clauses);
    forall c <- clauses ensures ParsedSomehow(parse, c) {
      ClausesAreParsed(parse, values, c);
    }
    RenderedTexts(parse, clauses);
    JoinTrimmed(parts);
    TrimKeepsTrimmed(Join(parts, ','));
    SplitJoin(parts, ',');
    RenderedIn(clauses, bad);
    SplitRendered(bad.op, bad.value);
    TrimKeepsTrimmed(Render(bad));
    PartsFail(parse, parts, Render(bad));
  }

  /** The merged constraint is valid exactly when there is at most one constraint or none
      is an arbitrary equality, and then it accepts exactly what every constraint accepts on
      its own; no constraint at all accepts every version. */
  lemma MergeMeansAll(parse: Parser, values: seq<string>)
    requires GoodParser(parse) && AllNormal(parse, values)
    ensures ParseConstraint(parse, Join(values, ',')).Ok? <==>
            |values| <= 1 || forall v <- values :: !Arbitrarily(parse, v)
    ensures ParseConstraint(parse, Join(values, ',')).Ok? ==>
            forall raw :: Accepts(parse, Join(values, ','), raw) <==>
                          (forall v <- values :: Accepts(parse, v, raw)) && (values == [] ==> parse(raw).Some?)
  {
    if c :| |values| > 1 && c in Merged(parse, values) && c.op == Arbitrary {
      MergedFails(parse, values, c);
      MergedClauses(parse, values);
      var v :| v in values && Normal(parse, v) && c in ClausesOf(parse, v);
      assert Arbitrarily(parse, v);
    } else {
      MergedParses(parse, values);
      if |values| > 1 {
        NoArbitraryClause(parse, values);
      }
      forall raw
        ensures Accepts(parse, Join(values, ','), raw) <==>
                (forall v <- values :: Accepts(parse, v, raw)) && (values == [] ==> parse(raw).Some?)
      {
        AcceptsAll(parse, values, raw);
      }
    }
  }

  lemma NoArbitraryClause(parse: Parser, values: seq<string>)
    requires AllNormal(parse, values) && forall c <- Merged(parse, values) :: c.op != Arbitrary
    ensures forall v <- values :: !Arbitrarily(parse, v)
  {
    MergedClauses(parse, values);
    forall v <- values ensures !Arbitrarily(parse, v) {
      assert forall c <- ClausesOf(parse, v) :: c in Merged(parse, values);
    }
  }

  lemma AcceptsAll(parse: Parser, values: seq<string>, raw: string)
    requires GoodParser(parse) && AllNormal(parse, values)
    requires ParseConstraint(parse, Join(values, ',')) == Ok(Merged(parse, values))
    requires |values| <= 1 || forall v <- values :: !Arbitrarily(parse, v)
    ensures Accepts(parse, Join(values, ','), raw) <==>
            (forall v <- values :: Accepts(parse, v, raw)) && (values == [] ==> parse(raw).Some?)
  {
    if |values| == 1 {
      assert values[0] in values && forall v <- values :: v == values[0];
    } else if values != [] {
      assert values[0] in values;
      MergedLength(parse, values);
      forall v <- values ensures Accepts(parse, v, raw) <==> AcceptsVersion(parse, v, raw) {
        PlainAccepts(parse, v, raw);
      }
      if parse(raw).Some? {
        AcceptsClauses(parse, values, raw);
      }
      assert Accepts(parse, Join(values, ','), raw) <==> AcceptsVersion(parse, Join(values, ','), raw);
    } else {
      assert Accepts(parse, Join(values, ','), raw) <==> parse(raw).Some?;
    }
  }

  lemma PlainAccepts(parse: Parser, text: string, raw: string)
    requires GoodParser(parse) && Normal(parse, text) && !Arbitrarily(parse, text)
    ensures Accepts(parse, text, raw) <==> AcceptsVersion(parse, text, raw)
  {
    var clauses := ClausesOf(parse, text);
    assert clauses != [] ==> clauses[0] in clauses;
  }

  lemma AcceptsClauses(parse: Parser, values: seq<string>, raw: string)
    requires GoodParser(parse) && AllNormal(parse, values) && parse(raw).Some?
    requires ParseConstraint(parse, Join(values, ',')) == Ok(Merged(parse, values))
    ensures AcceptsVersion(parse, Join(values, ','), raw) <==> forall v <- values :: AcceptsVersion(parse, v, raw)
  {
    MergedClauses(parse, values);
    ConstraintUsable(parse, Join(values, ','));
    var version := parse(raw).value;
    if AcceptsVersion(parse, Join(values, ','), raw) {
      forall v <- values ensures AcceptsVersion(parse, v, raw) {
        ConstraintUsable(parse, v);
        forall c <- ClausesOf(parse, v) ensures Satisfies(version, raw, c) {
          assert c in Merged(parse, values);
        }
      }
    }
    if forall v <- values :: AcceptsVersion(parse, v, raw) {
      forall c <- Merged(parse, values) ensures Satisfies(version, raw, c) {
        var v :| v in values && Normal(parse, v) && c in ClausesOf(parse, v);
        assert AcceptsVersion(parse, v, raw);
        ConstraintUsable(parse, v);
      }
    }
  }

  // ------------------------------------------------------------------ the whole merge

  lemma NormalIsTrimmed(parse: Parser, text: string)
    requires GoodParser(parse) && Normal(parse, text)
    ensures Trim(text) == text
  {
    var clauses := ClausesOf(parse, text);
    NormalHasClauses(parse, text);
    ParsedConstraint(parse, text);
    RenderedParts(parse, clauses, |clauses| == 1);
    JoinTrimmed(RenderAll(clauses));
    TrimKeepsTrimmed(text);
  }

  /** The constraints as ParseRequirement produces them. */
  ghost predicate AllStored(parse: Parser, requirements: seq<Requirement>) {
    forall r <- requirements :: r.active ==> r.constraint == "" || Normal(parse, r.constraint)
  }

  ghost predicate Wants(requirements: seq<Requirement>, name: string, text: string) {
    exists r <- requirements :: r.active && r.name == name && r.constraint == text
  }

  lemma WantedTexts(parse: Parser, requirements: seq<Requirement>, name: string)
    requires GoodParser(parse) && AllStored(parse, requirements)
    ensures forall text :: text in Wanted(requirements, name) <==> text != "" && Wants(requirements, name, text)
    ensures forall text <- Wanted(requirements, name) :: Normal(parse, text)
  {
    forall r <- requirements | r.active ensures Trim(r.constraint) == r.constraint {
      if r.constraint != "" {
        NormalIsTrimmed(parse, r.constraint);
      }
    }
  }

  /** An arbitrary equality and a different constraint on the same package. */
  ghost predicate Clash(parse: Parser, requirements: seq<Requirement>, name: string) {
    exists v, w :: ClashOf(parse, requirements, name, v, w)
  }

  ghost predicate ClashOf(parse: Parser, requirements: seq<Requirement>, name: string, v: string, w: string) {
    && Wants(requirements, name, v) && Wants(requirements, name, w) && v != w && w != ""
    && Normal(parse, v) && Arbitrarily(parse, v)
  }

  lemma TwoMembers<T>(s: seq<T>, a: T, b: T)
    requires a in s && b in s && a != b
    ensures |s| > 1
  {
    var i :| 0 <= i < |s| && s[i] == a;
    var j :| 0 <= j < |s| && s[j] == b;
  }

  lemma ClashExactly(parse: Parser, requirements: seq<Requirement>, name: string, values: seq<string>)
    requires GoodParser(parse) && AllStored(parse, requirements) && Distinct(values)
    requires Enumerates(values, Wanted(requirements, name)) && AllNormal(parse, values)
    ensures Clash(parse, requirements, name) <==> |values| > 1 && exists v <- values :: Arbitrarily(parse, v)
  {
    WantedTexts(parse, requirements, name);
    assert ListsWanted(requirements, name, values) by {
      forall text ensures text in values <==> text != "" && Wants(requirements, name, text) {
        assert text in values <==> text in Wanted(requirements, name);
      }
    }
    if Clash(parse, requirements, name) {
      ClashIsListed(parse, requirements, name, values);
    }
    if v :| v in values && |values| > 1 && Arbitrarily(parse, v) {
      TwoWanted(parse, requirements, name, values, v);
    }
  }

  ghost predicate ListsWanted(requirements: seq<Requirement>, name: string, values: seq<string>) {
    forall text :: text in values <==> text != "" && Wants(requirements, name, text)
  }

  lemma ClashIsListed(parse: Parser, requirements: seq<Requirement>, name: string, values: seq<string>)
    requires GoodParser(parse) && AllNormal(parse, values) && ListsWanted(requirements, name, values)
    requires Clash(parse, requirements, name)
    ensures |values| > 1 && exists v <- values :: Arbitrarily(parse, v)
  {
    var v, w :| ClashOf(parse, requirements, name, v, w);
    assert v in values && w in values;
    TwoMembers(values, v, w);
  }

  lemma TwoWanted(parse: Parser, requirements: seq<Requirement>, name: string, values: seq<string>, v: string)
    requires GoodParser(parse) && AllNormal(parse, values) && ListsWanted(requirements, name, values)
    requires Distinct(values) && |values| > 1 && v in values && Arbitrarily(parse, v)
    ensures Clash(parse, requirements, name)
  {
    var w := if values[0] == v then values[1] else values[0];
    assert w in values && v != w;
    assert ClashOf(parse, requirements, name, v, w);
  }

  /** What the package's requirements ask for: every constraint, or any version at all. */
  ghost predicate AllAccept(parse: Parser, requirements: seq<Requirement>, name: string, raw: string)
    requires GoodParser(parse)
  {
    && (forall r <- requirements :: r.active && r.name == name && r.constraint != "" ==>
          Accepts(parse, r.constraint, raw))
    && ((forall r <- requirements :: r.active && r.name == name ==> r.constraint == "") ==> parse(raw).Some?)
  }

  /** A merged dependency is a valid constraint exactly when no arbitrary equality clashes
      with another constraint, and then it accepts exactly what every active requirement of
      the package accepts. */
  lemma MergedDependency(parse: Parser, requirements: seq<Requirement>, deps: seq<Dependency>, d: Dependency)
    requires GoodParser(parse) && AllStored(parse, requirements) && Merges(requirements, deps) && d in deps
    ensures ParseConstraint(parse, d.versionRange).Ok? <==> !Clash(parse, requirements, d.name)
    ensures ParseConstraint(parse, d.versionRange).Ok? ==>
            forall raw :: Accepts(parse, d.versionRange, raw) <==> AllAccept(parse, requirements, d.name, raw)
  {
    var texts := Wanted(requirements, d.name);
    assert JoinsSorted(d.versionRange, texts);
    var values: seq<string> :|
      StrictlySorted(StringLess, values) && Enumerates(values, texts) && d.versionRange == Join(values, ',');
    WantedTexts(parse, requirements, d.name);
    StringLessIsStrict();
    ClashExactly(parse, requirements, d.name, values);
    MergeMeansAll(parse, values);
    if ParseConstraint(parse, d.versionRange).Ok? {
      forall raw ensures Accepts(parse, d.versionRange, raw) <==> AllAccept(parse, requirements, d.name, raw) {
        AcceptsEach(parse, requirements, d.name, values, raw);
      }
    }
  }

  lemma AcceptsEach(parse: Parser, requirements: seq<Requirement>, name: string, values: seq<string>, raw: string)
    requires GoodParser(parse) && AllStored(parse, requirements) && Enumerates(values, Wanted(requirements, name))
    ensures (forall v <- values :: Accepts(parse, v, raw)) && (values == [] ==> parse(raw).Some?) <==>
            AllAccept(parse, requirements, name, raw)
  {
    WantedTexts(parse, requirements, name);
    forall r <- requirements | r.active && r.name == name && r.constraint != "" ensures r.constraint in values {
      assert Wants(requirements, name, r.constraint);
    }
    forall v <- values ensures v != "" && Wants(requirements, name, v) {
      assert v in Wanted(requirements, name);
    }
    if values != [] {
      assert values[0] in values && Wants(requirements, name, values[0]);
    }
  }

  // ------------------------------------------------------------------- a concrete clash

  const TWO := Version("2", 0, [2], false, 0, 0, false, 0, false, 0, [])

  /** A parser that knows one version. */
  function OnlyTwo(): Parser {
    (s: string) => if s == "2" then Some(TWO) else None
  }

  lemma OnlyTwoIsGood()
    ensures GoodParser(OnlyTwo())
  {
  }

  /** The stored form of a requirement on version 2, with either equality. */
  lemma TwoIsNormal(op: Operator)
    requires op == Arbitrary || op == Equal
    ensures var c := Clause(op, "2", if op == Equal then TWO else NO_VERSION, 0, []); var text := Symbol(op) + "2";
            Normal(OnlyTwo(), text) && ClausesOf(OnlyTwo(), text) == [c]
  {
    var c := Clause(op, "2", if op == Equal then TWO else NO_VERSION, 0, []);
    SplitRendered(op, "2");
    TrimKeepsTrimmed(Render(c));
    assert Parsed(OnlyTwo(), c, true);
    assert RenderAll([c]) == [Render(c)];
    RenderedParses(OnlyTwo(), [c]);
  }

  lemma TwoIsAccepted(op: Operator)
    requires op == Arbitrary || op == Equal
    ensures GoodParser(OnlyTwo()) && Accepts(OnlyTwo(), Symbol(op) + "2", "2")
  {
    OnlyTwoIsGood();
    TwoIsNormal(op);
    ConstraintUsable(OnlyTwo(), Symbol(op) + "2");
    LexZero(Key(TWO), Key(TWO));
  }

  lemma PairName(a: Requirement, b: Requirement, deps: seq<Dependency>, d: Dependency)
    requires a.name == b.name && Merges([a, b], deps) && d in deps
    ensures d.name == a.name
  {
    var rs := [a, b];
    assert forall r <- rs :: r == a || r == b;
    NameIn(deps, d);
    var i :| 0 <= i < |Names(deps)| && Names(deps)[i] == d.name;
    assert d.name in ActiveNames(rs);
  }

  lemma PairClashes(parse: Parser, a: Requirement, b: Requirement)
    requires a.active && b.active && a.name == b.name && a.constraint != b.constraint
    requires Normal(parse, a.constraint) && Normal(parse, b.constraint) && Arbitrarily(parse, a.constraint)
    ensures AllStored(parse, [a, b]) && Clash(parse, [a, b], a.name)
  {
    var rs := [a, b];
    assert forall r <- rs :: r == a || r == b;
    assert rs[0] in rs && rs[1] in rs;
    assert Wants(rs, a.name, a.constraint) && Wants(rs, a.name, b.constraint);
    assert ClashOf(parse, rs, a.name, a.constraint, b.constraint);
  }

  lemma TwoTexts()
    ensures Symbol(Arbitrary) + "2" == "===2" && Symbol(Equal) + "2" == "==2" && "===2" != "==2"
  {
    assert |"===2"| == 4 && |"==2"| == 3;
  }

  /** Two requirements that version 2 satisfies one by one, merged into a constraint that
      is an error. */
  lemma ClashingPair(deps: seq<Dependency>, d: Dependency)
    requires Merges([Requirement("a", "===2", true), Requirement("a", "==2", true)], deps) && d in deps
    ensures GoodParser(OnlyTwo()) && Accepts(OnlyTwo(), "===2", "2") && Accepts(OnlyTwo(), "==2", "2")
    ensures ParseConstraint(OnlyTwo(), d.versionRange).Err?
  {
    TwoTexts();
    TwoIsAccepted(Arbitrary);
    TwoIsAccepted(Equal);
    TwoIsNormal(Arbitrary);
    TwoIsNormal(Equal);
    var a, b := Requirement("a", "===2", true), Requirement("a", "==2", true);
    assert ClausesOf(OnlyTwo(), "===2")[0] in ClausesOf(OnlyTwo(), "===2");
    PairClashes(OnlyTwo(), a, b);
    PairName(a, b, deps, d);
    MergedDependency(OnlyTwo(), [a, b], deps, d);
  }
}
