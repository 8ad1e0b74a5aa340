/** ResolveVersion: the highest available version that satisfies a constraint. */
module PyResolve {
  import opened Common
  import opened Orders
  import opened PyVersion
  import opened PyConstraint

  datatype Candidate = Candidate(original: string, version: Version)

  predicate Prerelease(v: Version) {
    v.hasPre || v.hasDev
  }

  predicate AllUsable(clauses: seq<Clause>) {
    forall c <- clauses :: Usable(c)
  }

  /** The text is a version that satisfies every clause. */
  predicate Matches(parse: Parser, clauses: seq<Clause>, raw: string)
    requires AllUsable(clauses)
  {
    parse(raw).Some? && SatisfiesAll(parse(raw).value, raw, clauses)
  }

  predicate StableMatch(parse: Parser, clauses: seq<Clause>, raw: string)
    requires AllUsable(clauses)
  {
    Matches(parse, clauses, raw) && !Prerelease(parse(raw).value)
  }

  /** A prerelease is in the pool only if a clause names one or nothing stable matches. */
  predicate InPool(parse: Parser, clauses: seq<Clause>, available: seq<string>, raw: string)
    requires AllUsable(clauses)
  {
    && raw in available && Matches(parse, clauses, raw)
    && (Prerelease(parse(raw).value) ==>
        PermitsPrerelease(clauses) || forall other <- available :: !StableMatch(parse, clauses, other))
  }

  predicate Exact(clauses: seq<Clause>) {
    |clauses| == 1 && clauses[0].op == Arbitrary
  }

  /** The text may be resolved to: arbitrary equality compares texts, and takes some that
      are no versions. */
  predicate Takes(parse: Parser, clauses: seq<Clause>, raw: string)
    requires AllUsable(clauses)
  {
    if Exact(clauses) then raw == clauses[0].value else Matches(parse, clauses, raw)
  }

  /** The text is a valid constraint that the other text can be resolved to. */
  ghost predicate Accepts(parse: Parser, text: string, raw: string)
    requires GoodParser(parse)
  {
    ParseConstraint(parse, text).Ok? &&
    (ConstraintUsable(parse, text); Takes(parse, ParseConstraint(parse, text).value, raw))
  }

  /** A version that satisfies every clause of the constraint. */
  ghost predicate AcceptsVersion(parse: Parser, text: string, raw: string)
    requires GoodParser(parse)
  {
    ParseConstraint(parse, text).Ok? &&
    (ConstraintUsable(parse, text); Matches(parse, ParseConstraint(parse, text).value, raw))
  }

  /** What ResolveVersion promises about its result. */
  ghost predicate Resolves(
    parse: Parser, clauses: seq<Clause>, available: seq<string>, out: Result<string, ConstraintError>)
    requires AllUsable(clauses)
  {
    if Exact(clauses) then
      out == if clauses[0].value in available then Ok(clauses[0].value) else Err(NoMatch)
    else
      match out
      case Err(e) => e == NoMatch && forall raw <- available :: !Matches(parse, clauses, raw)
      case Ok(best) =>
        && InPool(parse, clauses, available, best)
        && forall raw <- available :: InPool(parse, clauses, available, raw) ==>
             Order(parse(raw).value, parse(best).value) <= 0
  }

  // ------------------------------------------------------------------------ sorting

  function VersionOrder(): ((Candidate, Candidate) -> int) {
    (a: Candidate, b: Candidate) => Order(a.version, b.version)
  }

  lemma VersionOrderIsTotal()
    ensures TotalPreorder(VersionOrder())
  {
    var cmp := VersionOrder();
    forall x, y, z ensures Comparable(cmp, x, y, z)
    {
      OrderIsTotal(x.version, y.version, z.version);
    }
  }

  // ---------------------------------------------------------------------- resolution

  /** The candidates collected from a list: exactly its matches of one kind. */
  ghost predicate Collects(parse: Parser, clauses: seq<Clause>, seen: seq<string>, found: seq<Candidate>, pre: bool)
    requires AllUsable(clauses)
  {
    && (forall c <- found :: c.original in seen && Matches(parse, clauses, c.original) &&
          c.version == parse(c.original).value && Prerelease(c.version) == pre)
    && (forall raw <- seen :: Matches(parse, clauses, raw) && Prerelease(parse(raw).value) == pre ==>
          Candidate(raw, parse(raw).value) in found)
  }

  /** The loop that separates stable matches from prereleases. */
  method Collect(
    parse: Parser, clauses: seq<Clause>, available: seq<string>)
    returns (stable: seq<Candidate>, prerelease: seq<Candidate>)
    requires AllUsable(clauses)
    ensures Separated(parse, clauses, available, stable, prerelease)
  {
    stable, prerelease := [], [];
    var i := 0;
    while i < |available|
      invariant 0 <= i <= |available|
      invariant Collects(parse, clauses, available[..i], stable, false)
      invariant Collects(parse, clauses, available[..i], prerelease, true)
    {
      var raw := available[i];
      assert available[..i + 1] == available[..i] + [raw];
      i := i + 1;
      var version := parse(raw);
      if version.Some? {
        var good := MatchesClauses(version.value, raw, clauses);
        if good {
          var entry := Candidate(raw, version.value);
          if Prerelease(version.value) {
            prerelease := prerelease + [entry];
          } else {
            stable := stable + [entry];
          }
        }
      }
    }
    assert available[..i] == available;
  }

  method FindExact(value: string, available: seq<string>) returns (found: bool)
    ensures found <==> value in available
  {
    for i := 0 to |available|
      invariant value !in available[..i]
    {
      if available[i] == value {
        return true;
      }
    }
    assert available[..|available|] == available;
    return false;
  }

  method ResolveVersion(
    parse: Parser, constraint: string, available: seq<string>)
    returns (out: Result<string, ConstraintError>)
    requires GoodParser(parse)
    ensures match ParseConstraint(parse, constraint)
            case Err(e) => out == Err(e)
            case Ok(clauses) => AllUsable(clauses) && Resolves(parse, clauses, available, out)
  {
    var parsed := Parse(parse, constraint);
    if parsed.Err? {
      return Err(parsed.error);
    }
    ConstraintUsable(parse, constraint);
    var (clauses, permits) := parsed.value;
    if |clauses| == 1 && clauses[0].op == Arbitrary {
      var found := FindExact(clauses[0].value, available);
      return if found then Ok(clauses[0].value) else Err(NoMatch);
    }
    var stable, prerelease := Collect(parse, clauses, available);
    var candidates := stable;
    if permits || |candidates| == 0 {
      candidates := candidates + prerelease;
    }
    if |candidates| == 0 {
      NothingInPool(parse, clauses, available, stable, prerelease);
      return Err(NoMatch);
    }
    VersionOrderIsTotal();
    var sorted := SortBy(VersionOrder(), candidates);
    assert |multiset(sorted)| == |multiset(candidates)|;
    BestInPool(parse, clauses, available, stable, prerelease, sorted);
    return Ok(sorted[|sorted| - 1].original);
  }

  ghost predicate Separated(
    parse: Parser, clauses: seq<Clause>, available: seq<string>, stable: seq<Candidate>, prerelease: seq<Candidate>)
    requires AllUsable(clauses)
  {
    Collects(parse, clauses, available, stable, false) && Collects(parse, clauses, available, prerelease, true)
  }

  function Pool(clauses: seq<Clause>, stable: seq<Candidate>, prerelease: seq<Candidate>): seq<Candidate> {
    if PermitsPrerelease(clauses) || stable == [] then stable + prerelease else stable
  }

  /** The collected candidates are exactly the pool. */
  lemma PoolIsCollected(
    parse: Parser, clauses: seq<Clause>, available: seq<string>, stable: seq<Candidate>, prerelease: seq<Candidate>)
    requires AllUsable(clauses) && Separated(parse, clauses, available, stable, prerelease)
    ensures forall raw :: InPool(parse, clauses, available, raw) ==>
              Candidate(raw, parse(raw).value) in Pool(clauses, stable, prerelease)
    ensures forall c <- Pool(clauses, stable, prerelease) ::
              InPool(parse, clauses, available, c.original) && c.version == parse(c.original).value
  {
    if stable != [] {
      assert stable[0] in stable && StableMatch(parse, clauses, stable[0].original);
    }
    forall other <- available | StableMatch(parse, clauses, other) ensures stable != [] {
      assert Candidate(other, parse(other).value) in stable;
    }
  }

  lemma BestInPool(
    parse: Parser, clauses: seq<Clause>, available: seq<string>, stable: seq<Candidate>, prerelease: seq<Candidate>,
    sorted: seq<Candidate>)
    requires AllUsable(clauses) && !Exact(clauses) && sorted != []
    requires Separated(parse, clauses, available, stable, prerelease)
    requires SortedBy(VersionOrder(), sorted) && multiset(sorted) == multiset(Pool(clauses, stable, prerelease))
    ensures Resolves(parse, clauses, available, Ok(sorted[|sorted| - 1].original))
  {
    PoolIsCollected(parse, clauses, available, stable, prerelease);
    var best := sorted[|sorted| - 1];
    assert best in multiset(sorted) && best in Pool(clauses, stable, prerelease);
    forall raw <- available | InPool(parse, clauses, available, raw)
      ensures Order(parse(raw).value, parse(best.original).value) <= 0
    {
      var c := Candidate(raw, parse(raw).value);
      assert c in multiset(sorted);
      LastIsHighest(sorted, c);
    }
  }

  lemma LastIsHighest(sorted: seq<Candidate>, c: Candidate)
    requires SortedBy(VersionOrder(), sorted) && c in sorted
    ensures Order(c.version, sorted[|sorted| - 1].version) <= 0
  {
    var i :| 0 <= i < |sorted| && sorted[i] == c;
    OrderIsTotal(c.version, c.version, c.version);
    assert i < |sorted| - 1 ==> VersionOrder()(sorted[i], sorted[|sorted| - 1]) <= 0;
  }

  lemma NothingInPool(
    parse: Parser, clauses: seq<Clause>, available: seq<string>, stable: seq<Candidate>, prerelease: seq<Candidate>)
    requires AllUsable(clauses) && !Exact(clauses) && Separated(parse, clauses, available, stable, prerelease)
    requires Pool(clauses, stable, prerelease) == []
    ensures Resolves(parse, clauses, available, Err(NoMatch))
  {
    assert stable == [] && prerelease == [];
  }

  // ------------------------------------------------------------------------ theorems

  /** Resolution succeeds exactly if some available text is taken, and answers with one. */
  lemma ResolvesToTaken(
    parse: Parser, clauses: seq<Clause>, available: seq<string>, out: Result<string, ConstraintError>)
    requires AllUsable(clauses) && Resolves(parse, clauses, available, out)
    ensures out.Ok? <==> exists raw <- available :: Takes(parse, clauses, raw)
    ensures out.Ok? ==> out.value in available && Takes(parse, clauses, out.value)
  {
    if out.Ok? {
      assert out.value in available && Takes(parse, clauses, out.value);
    }
  }

  /** Reordering or repeating the available versions changes the answer at most to one
      that compares equal; failure does not depend on the order at all. */
  lemma PermutedList(
    parse: Parser, clauses: seq<Clause>, a: seq<string>, b: seq<string>, left: Result<string, ConstraintError>,
    right: Result<string, ConstraintError>)
    requires AllUsable(clauses) && (forall raw :: raw in a <==> raw in b)
    requires Resolves(parse, clauses, a, left) && Resolves(parse, clauses, b, right)
    ensures left.Ok? <==> right.Ok?
    ensures left.Ok? && !Exact(clauses) ==>
              parse(left.value).Some? && parse(right.value).Some? &&
              Order(parse(left.value).value, parse(right.value).value) == 0
    ensures Exact(clauses) || left.Err? ==> left == right
  {
    if !Exact(clauses) && left.Ok? && right.Ok? {
      var x, y := left.value, right.value;
      assert InPool(parse, clauses, a, y) && InPool(parse, clauses, b, x);
      OrderIsTotal(parse(x).value, parse(y).value, parse(x).value);
    }
  }
}
