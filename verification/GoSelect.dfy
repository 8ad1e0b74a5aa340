/** Select: rounds of propagation, selection and fetching until nothing is missing. */
module GoSelect {
  import opened Common
  import opened Orders
  import opened GoModel
  import opened GoPruning
  import opened GoSelection

  datatype Input = Input(rootPath: string, rootGo: string, requirements: seq<Requirement>, fetcher: Option<Fetcher>)

  // ------------------------------------------------------------------------- edges

  function Target(selected: map<string, string>, d: Coordinate): Coordinate {
    Coordinate(d.path, if d.path in selected then selected[d.path] else "")
  }

  function EdgesFrom(from: Coordinate, ds: set<Coordinate>, selected: map<string, string>): set<Edge> {
    set d <- ds :: Edge(from, Target(selected, d))
  }

  /** The edges among selected coordinates: of the root, and of the loaded selected modules. */
  ghost predicate IsEdge(
    root: Coordinate, roots: set<Coordinate>, selected: map<string, string>, cache: Cache, modes: Modes, e: Edge) {
    || e in EdgesFrom(root, roots, selected)
    || (e.from in Chosen(selected) && Loaded(cache, modes, e.from) &&
        e in EdgesFrom(e.from, Deps(cache, e.from), selected))
  }

  predicate EdgeLess(lib: Library, root: Coordinate, a: Edge, b: Edge) {
    if (a.from == root) != (b.from == root) then a.from == root
    else if a.from != b.from then lib.CoordinateLess(a.from, b.from)
    else lib.CoordinateLess(a.to, b.to)
  }

  function EdgeLt(lib: Library, root: Coordinate): (Edge, Edge) -> bool {
    (a, b) => EdgeLess(lib, root, a, b)
  }

  lemma EdgeOrder(lib: Library, root: Coordinate)
    requires lib.Ok()
    ensures StrictOrder(EdgeLt(lib, root))
  {
    CoordinateOrder(lib);
    var clt, lt := CoordinateLt(lib), EdgeLt(lib, root);
    forall a, b ensures !(lt(a, b) && lt(b, a)) && (lt(a, b) || a == b || lt(b, a)) {
      assert !(clt(a.from, b.from) && clt(b.from, a.from)) && !(clt(a.to, b.to) && clt(b.to, a.to));
      assert clt(a.from, b.from) || a.from == b.from || clt(b.from, a.from);
      assert clt(a.to, b.to) || a.to == b.to || clt(b.to, a.to);
    }
    forall a, b, c | lt(a, b) && lt(b, c) ensures lt(a, c) {
      assert clt(a.from, b.from) && clt(b.from, c.from) ==> clt(a.from, c.from);
      assert clt(a.to, b.to) && clt(b.to, c.to) ==> clt(a.to, c.to);
      assert !(clt(a.from, b.from) && clt(b.from, a.from));
    }
  }

  method AddSelectedEdges(
    edges: set<Edge>, from: Coordinate, rs: seq<Requirement>, selected: map<string, string>)
    returns (edges': set<Edge>)
    ensures edges' == edges + EdgesFrom(from, Named(rs), selected)
  {
    edges' := edges;
    var i := 0;
    while i < |rs|
      invariant 0 <= i <= |rs|
      invariant edges' == edges + EdgesFrom(from, Named(rs[..i]), selected)
    {
      NamedNext(rs, i);
      edges' := edges' + {Edge(from, Target(selected, CoordinateOf(rs[i])))};
      i := i + 1;
    }
    assert rs[..|rs|] == rs;
  }

  /** The answer for a state without missing metadata: sorted modules and sorted edges. */
  ghost predicate IsResult(
    lib: Library, root: Coordinate, roots: set<Coordinate>, selected: map<string, string>, cache: Cache, modes: Modes,
    result: Selection) {
    && StrictlySorted(CoordinateLt(lib), result.modules) && Enumerates(result.modules, Chosen(selected))
    && StrictlySorted(EdgeLt(lib, root), result.edges)
    && (forall e :: e in result.edges <==> IsEdge(root, roots, selected, cache, modes, e))
  }

  method BuildSelection(
    lib: Library, rootPath: string, rs: seq<Requirement>, selected: map<string, string>, cache: Cache, modes: Modes)
    returns (result: Selection)
    requires lib.Ok()
    ensures IsResult(lib, Coordinate(rootPath, ""), Named(rs), selected, cache, modes, result)
  {
    var root := Coordinate(rootPath, "");
    CoordinateOrder(lib);
    EdgeOrder(lib, root);
    var modules := Sort(CoordinateLt(lib), Chosen(selected));
    var edgeSet := AddSelectedEdges({}, root, rs, selected);
    ghost var roots := Named(rs);
    var i := 0;
    while i < |modules|
      invariant 0 <= i <= |modules|
      invariant forall e :: e in edgeSet <==> EdgeSoFar(root, roots, selected, cache, modes, modules, i, e)
    {
      if Mode(modes, modules[i]) != LoadNone && modules[i] in cache {
        edgeSet := AddSelectedEdges(edgeSet, modules[i], cache[modules[i]].requirements, selected);
      }
      i := i + 1;
    }
    var edges := Sort(EdgeLt(lib, root), edgeSet);
    EdgesComplete(root, roots, selected, cache, modes, modules, edges, edgeSet);
    result := Selection(modules, edges);
  }

  ghost predicate EdgeSoFar(
    root: Coordinate, roots: set<Coordinate>, selected: map<string, string>, cache: Cache, modes: Modes,
    modules: seq<Coordinate>, n: nat, e: Edge)
    requires n <= |modules|
  {
    || e in EdgesFrom(root, roots, selected)
    || exists k :: 0 <= k < n && Loaded(cache, modes, modules[k]) &&
         e in EdgesFrom(modules[k], Deps(cache, modules[k]), selected)
  }

  lemma EdgesComplete(
    root: Coordinate, roots: set<Coordinate>, selected: map<string, string>, cache: Cache, modes: Modes,
    modules: seq<Coordinate>, edges: seq<Edge>, edgeSet: set<Edge>)
    requires Enumerates(modules, Chosen(selected)) && Enumerates(edges, edgeSet)
    requires forall e :: e in edgeSet <==> EdgeSoFar(root, roots, selected, cache, modes, modules, |modules|, e)
    ensures forall e :: e in edges <==> IsEdge(root, roots, selected, cache, modes, e)
  {
    forall e ensures e in edges <==> IsEdge(root, roots, selected, cache, modes, e) {
      assert e in edges <==> e in edgeSet;
      if IsEdge(root, roots, selected, cache, modes, e) && e !in EdgesFrom(root, roots, selected) {
        assert e.from in modules;
        var k :| 0 <= k < |modules| && modules[k] == e.from;
        assert EdgeSoFar(root, roots, selected, cache, modes, modules, |modules|, e);
      }
    }
  }

  // ------------------------------------------------------------------------- rounds

  datatype Round = Round(cache: Cache, modes: Modes, selected: map<string, string>, missing: seq<Coordinate>)

  ghost predicate RoundOk(lib: Library, roots: set<Coordinate>, start: Modes, r: Round) {
    && Propagated(lib, start, r.cache, r.modes)
    && IsSelection(lib, roots, r.cache, r.modes, r.selected)
    && IsMissing(lib, r.selected, r.cache, r.missing)
  }

  /** A round answered in full: exactly the requested modules, each valid. */
  ghost predicate GoodFetch(lib: Library, requested: seq<Coordinate>, fetched: Cache) {
    && (forall c <- fetched :: EntryError(lib, requested, fetched, c).None?)
    && (forall i :: 0 <= i < |requested| ==> requested[i] in fetched)
  }

  /** The cache of the next round. */
  ghost predicate Follows(lib: Library, fetcher: Option<Fetcher>, a: Round, cache: Cache) {
    && a.missing != [] && fetcher.Some? && fetcher.value(a.missing).Ok?
    && GoodFetch(lib, a.missing, fetcher.value(a.missing).value)
    && cache == Merged(a.cache, a.missing, fetcher.value(a.missing).value)
  }

  ghost predicate Continues(lib: Library, fetcher: Option<Fetcher>, rs: seq<Round>, cache: Cache) {
    if rs == [] then cache == map[] else Follows(lib, fetcher, rs[|rs| - 1], cache)
  }

  ghost predicate RoundAt(
    lib: Library, roots: set<Coordinate>, start: Modes, fetcher: Option<Fetcher>, rs: seq<Round>, i: nat) {
    i < |rs| && RoundOk(lib, roots, start, rs[i]) && Continues(lib, fetcher, rs[..i], rs[i].cache)
  }

  /** The rounds of one call, from the empty cache on. */
  ghost predicate Trace(lib: Library, roots: set<Coordinate>, start: Modes, fetcher: Option<Fetcher>, rs: seq<Round>) {
    forall i: nat {:trigger RoundAt(lib, roots, start, fetcher, rs, i)} ::
      i < |rs| ==> RoundAt(lib, roots, start, fetcher, rs, i)
  }

  /** What the call answers after its last round. */
  ghost predicate Outcome(lib: Library, input: Input, rs: seq<Round>, out: Result<Selection, MvsError>)
    requires rs != []
  {
    var last := rs[|rs| - 1];
    if last.missing == [] then
      out.Ok? &&
      IsResult(lib, Coordinate(input.rootPath, ""), Named(input.requirements),
               last.selected, last.cache, last.modes, out.value)
    else if input.fetcher.None? then out == Err(NoFetcher)
    else
      match input.fetcher.value(last.missing)
      case Err(_) => out == Err(FetchFailed)
      case Ok(fetched) =>
        exists returned ::
          && SortedKeys(lib, fetched, returned)
          && RoundError(lib, last.missing, fetched, returned, 0, 0).Some?
          && out == Err(RoundError(lib, last.missing, fetched, returned, 0, 0).value)
  }

  /** The checks made before the first round. */
  function Rejected(lib: Library, input: Input): Option<MvsError> {
    if !lib.checkPath(input.rootPath) then Some(InvalidRoot)
    else if !lib.validGo(input.rootGo) then Some(InvalidGoDirective)
    else RequirementError(lib, "root", input.requirements)
  }

  /** Only finitely many coordinates can ever be required. */
  ghost predicate Finite(input: Input, universe: set<Coordinate>) {
    && Named(input.requirements) <= universe
    && (input.fetcher.Some? ==>
          forall asked :: input.fetcher.value(asked).Ok? ==>
            forall c <- input.fetcher.value(asked).value ::
              Named(input.fetcher.value(asked).value[c].requirements) <= universe)
  }

  /** What the loop knows of its cache. */
  ghost predicate CacheOk(lib: Library, universe: set<Coordinate>, cache: Cache) {
    forall c <- cache :: AllCoordinatesValid(lib, Deps(cache, c)) && Deps(cache, c) <= universe
  }

  lemma DeclaredIsOk(lib: Library, universe: set<Coordinate>, roots: set<Coordinate>, cache: Cache, modes: Modes)
    requires CacheOk(lib, universe, cache) && roots <= universe && AllCoordinatesValid(lib, roots)
    ensures DeclaredValid(lib, roots, cache, modes)
    ensures forall d :: IsDeclared(roots, cache, modes, d) ==> d in universe
  {
  }

  lemma GoodFetchMeans(lib: Library, requested: seq<Coordinate>, fetched: Cache, returned: seq<Coordinate>)
    requires SortedKeys(lib, fetched, returned) && RoundError(lib, requested, fetched, returned, 0, 0).None?
    ensures GoodFetch(lib, requested, fetched)
  {
    GoodRound(lib, requested, fetched, returned, 0, 0);
    forall c <- fetched ensures EntryError(lib, requested, fetched, c).None? {
      assert c in returned;
    }
  }

  lemma MergedIsOk(lib: Library, universe: set<Coordinate>, cache: Cache, requested: seq<Coordinate>, fetched: Cache)
    requires CacheOk(lib, universe, cache) && GoodFetch(lib, requested, fetched)
    requires forall c <- fetched :: Named(fetched[c].requirements) <= universe
    ensures CacheOk(lib, universe, Merged(cache, requested, fetched))
  {
    var merged := Merged(cache, requested, fetched);
    forall c <- merged ensures AllCoordinatesValid(lib, Deps(merged, c)) && Deps(merged, c) <= universe {
      if c in requested && c in fetched {
        assert EntryError(lib, requested, fetched, c).None?;
      } else {
        assert Deps(merged, c) == Deps(cache, c);
      }
    }
  }

  lemma FewerLeft(universe: set<Coordinate>, a: set<Coordinate>, b: set<Coordinate>, x: Coordinate)
    requires a <= b && x in universe && x !in a && x in b
    ensures |universe - b| < |universe - a|
  {
    SubsetSize(universe - b, (universe - a) - {x});
  }

  /** A round that was answered leaves strictly fewer coordinates to fetch. */
  lemma RoundShrinks(
    lib: Library, universe: set<Coordinate>, selected: map<string, string>, cache: Cache, missing: seq<Coordinate>,
    fetched: Cache)
    requires Enumerates(missing, Chosen(selected) - cache.Keys) && missing != [] && missing[0] in fetched
    requires Chosen(selected) <= universe
    ensures |universe - Merged(cache, missing, fetched).Keys| < |universe - cache.Keys|
  {
    FewerLeft(universe, cache.Keys, Merged(cache, missing, fetched).Keys, missing[0]);
  }

  /** Propagation, selection and the list of what is missing, for the current cache. */
  method OneRound(
    lib: Library, input: Input, ghost universe: set<Coordinate>, ghost earlier: Cache, cache: Cache, stored: Modes)
    returns (modes: Modes, selected: map<string, string>, missing: seq<Coordinate>)
    requires lib.Ok() && Rejected(lib, input).None? && Finite(input, universe)
    requires Propagated(lib, StartModes(lib, input.rootGo, Named(input.requirements)), earlier, stored)
    requires CacheGrows(earlier, cache) && CacheOk(lib, universe, cache)
    ensures RoundOk(lib, Named(input.requirements), StartModes(lib, input.rootGo, Named(input.requirements)),
                    Round(cache, modes, selected, missing))
    ensures Chosen(selected) <= universe
  {
    ghost var roots := Named(input.requirements);
    CoordinateOrder(lib);
    var order := Sort(CoordinateLt(lib), cache.Keys);
    modes := PropagateLoadModes(lib, stored, cache, order);
    PropagationResumes(lib, StartModes(lib, input.rootGo, roots), earlier, stored, cache, modes);
    DeclaredIsOk(lib, universe, roots, cache, modes);
    var computed := ComputeSelected(lib, input.requirements, cache, modes);
    selected := computed.value;
    missing := MissingCoordinates(lib, selected, cache);
    forall c <- Chosen(selected) ensures c in universe {
      assert IsDeclared(roots, cache, modes, c);
    }
  }

  /** Asks for what is missing and merges the answer. */
  method FetchMissing(
    lib: Library, input: Input, ghost universe: set<Coordinate>, ghost round: Round, cache: Cache,
    missing: seq<Coordinate>)
    returns (out: Result<Cache, MvsError>)
    requires lib.Ok() && Finite(input, universe) && CacheOk(lib, universe, cache) && Chosen(round.selected) <= universe
    requires round.cache == cache && round.missing == missing != [] && IsMissing(lib, round.selected, cache, missing)
    ensures out.Ok? ==>
              && Follows(lib, input.fetcher, round, out.value) && CacheOk(lib, universe, out.value)
              && CacheGrows(cache, out.value) && |universe - out.value.Keys| < |universe - cache.Keys|
    ensures out.Err? ==> Outcome(lib, input, [round], Err(out.error))
  {
    if input.fetcher.None? {
      return Err(NoFetcher);
    }
    var answer := input.fetcher.value(missing);
    if answer.Err? {
      return Err(FetchFailed);
    }
    ghost var returned;
    out, returned := AddFetchRound(lib, missing, answer.value, cache);
    if out.Ok? {
      GoodFetchMeans(lib, missing, answer.value, returned);
      MergedIsOk(lib, universe, cache, missing, answer.value);
      RoundShrinks(lib, universe, round.selected, cache, missing, answer.value);
      MergedGrows(lib, round.selected, cache, missing, answer.value);
    }
  }

  /** In every round the chains of requirements say which modules are loaded how. */
  ghost predicate AllByChains(lib: Library, input: Input, rs: seq<Round>) {
    forall i :: 0 <= i < |rs| ==>
      LoadedByChains(lib, input.rootGo, Named(input.requirements), rs[i].cache, rs[i].modes)
  }

  lemma TraceByChains(lib: Library, input: Input, rs: seq<Round>)
    requires Trace(lib, Named(input.requirements), StartModes(lib, input.rootGo, Named(input.requirements)),
                   input.fetcher, rs)
    ensures AllByChains(lib, input, rs)
  {
    var roots := Named(input.requirements);
    forall i | 0 <= i < |rs| ensures LoadedByChains(lib, input.rootGo, roots, rs[i].cache, rs[i].modes) {
      assert RoundAt(lib, roots, StartModes(lib, input.rootGo, roots), input.fetcher, rs, i);
      ChainsDecide(lib, input.rootGo, roots, rs[i].cache, rs[i].modes);
    }
  }

  /** Terminates for every fetcher over a finite universe; its rounds and its answer are
      as Trace and Outcome say. */
  method Select(
    lib: Library, input: Input, ghost universe: set<Coordinate>)
    returns (out: Result<Selection, MvsError>, ghost rounds: seq<Round>)
    requires lib.Ok() && Finite(input, universe)
    ensures Rejected(lib, input).Some? ==> out == Err(Rejected(lib, input).value)
    ensures Rejected(lib, input).None? ==>
              && rounds != [] && Outcome(lib, input, rounds, out)
              && Trace(lib, Named(input.requirements), StartModes(lib, input.rootGo, Named(input.requirements)),
                       input.fetcher, rounds)
              && AllByChains(lib, input, rounds)
  {
    rounds := [];
    if !lib.checkPath(input.rootPath) {
      return Err(InvalidRoot), rounds;
    }
    if !lib.validGo(input.rootGo) {
      return Err(InvalidGoDirective), rounds;
    }
    var invalid := ValidateRequirements(lib, "root", input.requirements);
    if invalid.Some? {
      return Err(invalid.value), rounds;
    }
    ghost var roots := Named(input.requirements);
    ghost var start := StartModes(lib, input.rootGo, roots);
    var cache: Cache := map[];
    var modes := InitialModes(lib, input);
    ghost var earlier: Cache := map[];
    StartPropagated(lib, start);
    while true
      invariant Propagated(lib, start, earlier, modes) && CacheGrows(earlier, cache)
      invariant CacheOk(lib, universe, cache)
      invariant Trace(lib, roots, start, input.fetcher, rounds) && Continues(lib, input.fetcher, rounds, cache)
      decreases |universe - cache.Keys|
    {
      var selected, missing;
      modes, selected, missing := OneRound(lib, input, universe, earlier, cache, modes);
      ghost var round := Round(cache, modes, selected, missing);
      TraceExtends(lib, roots, start, input.fetcher, rounds, round);
      rounds := rounds + [round];
      if missing == [] {
        var result := BuildSelection(lib, input.rootPath, input.requirements, selected, cache, modes);
        TraceByChains(lib, input, rounds);
        return Ok(result), rounds;
      }
      var merged := FetchMissing(lib, input, universe, round, cache, missing);
      if merged.Err? {
        TraceByChains(lib, input, rounds);
        return Err(merged.error), rounds;
      }
      earlier := cache;
      cache := merged.value;
    }
  }

  method InitialModes(lib: Library, input: Input) returns (modes: Modes)
    ensures modes == StartModes(lib, input.rootGo, Named(input.requirements))
  {
    var rootMode := LoadDirect;
    if !lib.pruning(input.rootGo) {
      rootMode := LoadFull;
    }
    modes := map[];
    var rs := input.requirements;
    var i := 0;
    while i < |rs|
      invariant 0 <= i <= |rs|
      invariant modes == StartModes(lib, input.rootGo, Named(rs[..i]))
    {
      NamedNext(rs, i);
      var changed;
      modes, changed := PromoteLoadMode(modes, CoordinateOf(rs[i]), rootMode);
      i := i + 1;
    }
    assert rs[..|rs|] == rs;
  }

  lemma StartPropagated(lib: Library, start: Modes)
    ensures Propagated(lib, start, map[], start)
  {
  }

  lemma MergedGrows(lib: Library, selected: map<string, string>, cache: Cache, missing: seq<Coordinate>, fetched: Cache)
    requires IsMissing(lib, selected, cache, missing)
    ensures CacheGrows(cache, Merged(cache, missing, fetched))
  {
    forall c <- cache ensures c !in missing {
    }
  }

  lemma TraceExtends(
    lib: Library, roots: set<Coordinate>, start: Modes, fetcher: Option<Fetcher>, rs: seq<Round>, r: Round)
    requires Trace(lib, roots, start, fetcher, rs) && Continues(lib, fetcher, rs, r.cache)
    requires RoundOk(lib, roots, start, r)
    ensures Trace(lib, roots, start, fetcher, rs + [r])
  {
    var rs' := rs + [r];
    forall i: nat | i < |rs'| ensures RoundAt(lib, roots, start, fetcher, rs', i) {
      if i < |rs| {
        assert RoundAt(lib, roots, start, fetcher, rs, i);
        assert rs'[..i] == rs[..i];
      } else {
        assert rs'[..i] == rs;
      }
    }
  }
}
