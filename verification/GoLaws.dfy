/** What a caller of Select may rely on, in terms of the requirement lists, the chains of
    requirements, and the order of versions and texts. */
module GoLaws {
  import opened Common
  import opened Orders
  import opened GoModel
  import opened GoPruning
  import opened GoSelection
  import opened GoSelect
  import opened GoTheorems

  // ------------------------------------------------------------------ what is demanded

  predicate RootAsks(input: Input, d: Coordinate) {
    exists r <- input.requirements :: r.path == d.path && r.version == d.version
  }

  ghost predicate ForcedIn(lib: Library, input: Input, cache: Cache, m: Coordinate) {
    ForcedByChain(lib, input.rootGo, Named(input.requirements), cache, m)
  }

  /** The requirements of the module count. */
  ghost predicate InForce(lib: Library, input: Input, cache: Cache, m: Coordinate) {
    m in cache && (RootAsks(input, m) || ForcedIn(lib, input, cache, m))
  }

  ghost predicate Demands(lib: Library, input: Input, cache: Cache, m: Coordinate, d: Coordinate) {
    InForce(lib, input, cache, m) && Asks(cache, m, d)
  }

  ghost predicate Demanded(lib: Library, input: Input, cache: Cache, d: Coordinate) {
    RootAsks(input, d) || exists m :: Demands(lib, input, cache, m, d)
  }

  /** The version asked for is below the version given, or equal in order and not the later
      text. */
  ghost predicate AtMostVersion(lib: Library, asked: string, given: string) {
    lib.compare(asked, given) < 0 || (lib.compare(asked, given) == 0 && !TextPrecedes(given, asked))
  }

  lemma NamedMeans(input: Input, d: Coordinate)
    ensures d in Named(input.requirements) <==> RootAsks(input, d)
  {
    if d in Named(input.requirements) {
      var r :| r in input.requirements && CoordinateOf(r) == d;
      assert r.path == d.path;
    }
  }

  ghost predicate ByChains(lib: Library, input: Input, r: Round) {
    LoadedByChains(lib, input.rootGo, Named(input.requirements), r.cache, r.modes)
  }

  lemma InForceMeans(lib: Library, input: Input, r: Round, m: Coordinate)
    requires ByChains(lib, input, r)
    ensures Loaded(r.cache, r.modes, m) <==> InForce(lib, input, r.cache, m)
  {
    NamedMeans(input, m);
  }

  lemma DemandedMeans(lib: Library, input: Input, r: Round, d: Coordinate)
    requires ByChains(lib, input, r)
    ensures IsDeclared(Named(input.requirements), r.cache, r.modes, d) <==> Demanded(lib, input, r.cache, d)
  {
    NamedMeans(input, d);
    if m :| m in r.cache && Loaded(r.cache, r.modes, m) && d in Deps(r.cache, m) {
      InForceMeans(lib, input, r, m);
      AsksIsDep(r.cache, m, d);
      assert Demands(lib, input, r.cache, m, d);
    }
    if m :| Demands(lib, input, r.cache, m, d) {
      InForceMeans(lib, input, r, m);
      AsksIsDep(r.cache, m, d);
    }
  }

  // -------------------------------------------------------------------- what is accepted

  predicate AllUsable(lib: Library, rs: seq<Requirement>) {
    forall r <- rs :: lib.validVersion(r.version) && lib.checkModule(r.path, r.version)
  }

  /** A call gets as far as its first round exactly if the root's path, its go directive and
      every requirement are valid. */
  lemma AcceptedInput(lib: Library, input: Input)
    ensures Rejected(lib, input).None? <==>
            lib.checkPath(input.rootPath) && lib.validGo(input.rootGo) && AllUsable(lib, input.requirements)
  {
    UsableMeans(lib, input.requirements);
  }

  lemma UsableMeans(lib: Library, rs: seq<Requirement>)
    ensures AllCoordinatesValid(lib, Named(rs)) <==> AllUsable(lib, rs)
  {
    if AllCoordinatesValid(lib, Named(rs)) {
      forall r <- rs ensures lib.validVersion(r.version) && lib.checkModule(r.path, r.version) {
        assert CoordinateOf(r) in Named(rs);
      }
    }
  }

  /** An answer of the fetcher is taken exactly if it holds the requested modules and no
      other, each under its own path and with valid requirements. */
  lemma AcceptedRound(lib: Library, requested: seq<Coordinate>, fetched: Cache)
    ensures GoodFetch(lib, requested, fetched) <==>
            && (forall c :: c in fetched <==> c in requested)
            && (forall c <- fetched :: fetched[c].path == c.path && AllUsable(lib, fetched[c].requirements))
  {
    forall c <- fetched ensures EntryError(lib, requested, fetched, c).None? <==>
                                c in requested && fetched[c].path == c.path && AllUsable(lib, fetched[c].requirements) {
      UsableMeans(lib, fetched[c].requirements);
    }
    assert (forall c <- requested :: c in fetched) <==> forall i :: 0 <= i < |requested| ==> requested[i] in fetched;
  }

  // ------------------------------------------------------------------------ pruning

  /** When the root and every cached module prune, only the root's requirements and what
      the root's cached requirements ask for are demanded. */
  lemma PrunedIsShallow(lib: Library, input: Input, cache: Cache, d: Coordinate)
    requires lib.pruning(input.rootGo) && forall m <- cache :: lib.pruning(cache[m].goVersion)
    ensures Demanded(lib, input, cache, d) <==>
            RootAsks(input, d) || exists m :: RootAsks(input, m) && Asks(cache, m, d)
  {
    forall m ensures !ForcedIn(lib, input, cache, m) {
      if p :| Forces(lib, input.rootGo, Named(input.requirements), cache, p, m) {
        assert false;
      }
    }
    if m :| RootAsks(input, m) && Asks(cache, m, d) {
      assert Demands(lib, input, cache, m, d);
    }
    if m :| Demands(lib, input, cache, m, d) {
      assert RootAsks(input, m) && Asks(cache, m, d);
    }
  }

  /** The same of a round of Select: nothing deeper is declared in it. */
  lemma PrunedRound(lib: Library, input: Input, rs: seq<Round>, i: nat, d: Coordinate)
    requires AllByChains(lib, input, rs) && i < |rs| && lib.pruning(input.rootGo)
    requires forall m <- rs[i].cache :: lib.pruning(rs[i].cache[m].goVersion)
    ensures IsDeclared(Named(input.requirements), rs[i].cache, rs[i].modes, d) <==>
            RootAsks(input, d) || exists m :: RootAsks(input, m) && Asks(rs[i].cache, m, d)
  {
    DemandedMeans(lib, input, rs[i], d);
    PrunedIsShallow(lib, input, rs[i].cache, d);
  }

  // ------------------------------------------------------------------------ the answer

  /** The call has answered after these rounds. */
  ghost predicate Answered(lib: Library, input: Input, rs: seq<Round>, result: Selection) {
    && lib.Ok() && rs != [] && AllByChains(lib, input, rs) && Outcome(lib, input, rs, Ok(result))
    && Trace(lib, Named(input.requirements), StartModes(lib, input.rootGo, Named(input.requirements)),
             input.fetcher, rs)
  }

  lemma AnswerIsResult(lib: Library, input: Input, rs: seq<Round>, result: Selection)
    requires Answered(lib, input, rs, result)
    ensures var last := rs[|rs| - 1]; var roots := Named(input.requirements);
            && last.missing == [] && ByChains(lib, input, last)
            && IsSelection(lib, roots, last.cache, last.modes, last.selected)
            && Chosen(last.selected) <= last.cache.Keys
            && IsResult(lib, Coordinate(input.rootPath, ""), roots, last.selected, last.cache, last.modes, result)
  {
    var roots := Named(input.requirements);
    RoundIsOk(lib, roots, StartModes(lib, input.rootGo, roots), input.fetcher, rs, |rs| - 1);
    NothingMissing(lib, rs[|rs| - 1]);
  }

  /** A listed module is demanded as it stands and its metadata are at hand. */
  lemma ListedIsDemanded(lib: Library, input: Input, rs: seq<Round>, result: Selection, m: Coordinate)
    requires Answered(lib, input, rs, result) && m in result.modules
    ensures m in rs[|rs| - 1].cache && Demanded(lib, input, rs[|rs| - 1].cache, m)
  {
    AnswerIsResult(lib, input, rs, result);
    assert m in Chosen(rs[|rs| - 1].selected);
    DemandedMeans(lib, input, rs[|rs| - 1], m);
  }

  /** Every demand is met: a module of that path is listed, at no lower version. */
  lemma DemandIsMet(lib: Library, input: Input, rs: seq<Round>, result: Selection, d: Coordinate)
    requires Answered(lib, input, rs, result) && Demanded(lib, input, rs[|rs| - 1].cache, d)
    ensures exists m <- result.modules :: m.path == d.path && AtMostVersion(lib, d.version, m.version)
  {
    AnswerIsResult(lib, input, rs, result);
    var last := rs[|rs| - 1];
    DemandedMeans(lib, input, last, d);
    var m := Coordinate(d.path, last.selected[d.path]);
    assert m in Chosen(last.selected) && m in result.modules;
    StringCompareMeans(d.version, m.version);
    assert lib.compare(d.version, m.version) <= 0;
  }

  /** Modules are listed by path, one for each. */
  lemma ModulesAreSorted(lib: Library, input: Input, rs: seq<Round>, result: Selection, i: nat, j: nat)
    requires Answered(lib, input, rs, result) && i < j < |result.modules|
    ensures TextPrecedes(result.modules[i].path, result.modules[j].path)
  {
    AnswerIsResult(lib, input, rs, result);
    var a, b := result.modules[i], result.modules[j];
    var last := rs[|rs| - 1];
    assert a in Chosen(last.selected) && b in Chosen(last.selected);
    assert CoordinateLt(lib)(a, b);
    CoordinateOrder(lib);
    StringCompareMeans(a.path, b.path);
  }

  /** The edge comes from a demand: of the root, or of a listed module in force. */
  ghost predicate EdgeOf(lib: Library, input: Input, cache: Cache, modules: seq<Coordinate>, e: Edge, d: Coordinate) {
    && e.to in modules && e.to.path == d.path
    && ((e.from == Coordinate(input.rootPath, "") && RootAsks(input, d)) ||
        (e.from in modules && Demands(lib, input, cache, e.from, d)))
  }

  ghost predicate HasDemand(lib: Library, input: Input, cache: Cache, modules: seq<Coordinate>, e: Edge) {
    exists d :: EdgeOf(lib, input, cache, modules, e, d)
  }

  /** The edges are exactly these: for each path that the root, or a listed module in force,
      asks for, one to the listed module of that path. */
  lemma EdgesExactly(lib: Library, input: Input, rs: seq<Round>, result: Selection, e: Edge)
    requires Answered(lib, input, rs, result)
    ensures e in result.edges <==> HasDemand(lib, input, rs[|rs| - 1].cache, result.modules, e)
  {
    AnswerIsResult(lib, input, rs, result);
    var last := rs[|rs| - 1];
    if e in result.edges {
      var d := EdgeHasDemand(lib, input, last, result, e);
    }
    if d :| EdgeOf(lib, input, last.cache, result.modules, e, d) {
      DemandHasEdge(lib, input, last, result, e, d);
    }
  }

  ghost predicate LastRound(lib: Library, input: Input, last: Round, result: Selection) {
    && ByChains(lib, input, last)
    && IsSelection(lib, Named(input.requirements), last.cache, last.modes, last.selected)
    && IsResult(lib, Coordinate(input.rootPath, ""), Named(input.requirements), last.selected, last.cache, last.modes,
                result)
  }

  lemma TargetIsListed(lib: Library, input: Input, last: Round, result: Selection, d: Coordinate)
    requires LastRound(lib, input, last, result)
    requires IsDeclared(Named(input.requirements), last.cache, last.modes, d)
    ensures Target(last.selected, d) in result.modules && d.path in last.selected
  {
    assert Target(last.selected, d) in Chosen(last.selected);
  }

  lemma EdgeHasDemand(lib: Library, input: Input, last: Round, result: Selection, e: Edge) returns (d: Coordinate)
    requires LastRound(lib, input, last, result) && e in result.edges
    ensures EdgeOf(lib, input, last.cache, result.modules, e, d)
  {
    var root, roots := Coordinate(input.rootPath, ""), Named(input.requirements);
    assert IsEdge(root, roots, last.selected, last.cache, last.modes, e);
    if e in EdgesFrom(root, roots, last.selected) {
      d :| d in roots && e == Edge(root, Target(last.selected, d));
      NamedMeans(input, d);
    } else {
      d :| d in Deps(last.cache, e.from) && e == Edge(e.from, Target(last.selected, d));
      InForceMeans(lib, input, last, e.from);
      AsksIsDep(last.cache, e.from, d);
    }
    TargetIsListed(lib, input, last, result, d);
  }

  lemma DemandHasEdge(lib: Library, input: Input, last: Round, result: Selection, e: Edge, d: Coordinate)
    requires LastRound(lib, input, last, result) && EdgeOf(lib, input, last.cache, result.modules, e, d)
    ensures e in result.edges
  {
    var root, roots := Coordinate(input.rootPath, ""), Named(input.requirements);
    NamedMeans(input, d);
    assert e.to in Chosen(last.selected) && e.to == Target(last.selected, d);
    if e.from == root && RootAsks(input, d) {
      assert e in EdgesFrom(root, roots, last.selected);
    } else {
      InForceMeans(lib, input, last, e.from);
      AsksIsDep(last.cache, e.from, d);
      assert e in EdgesFrom(e.from, Deps(last.cache, e.from), last.selected);
    }
    assert IsEdge(root, roots, last.selected, last.cache, last.modes, e);
  }

  /** Edges of the root come first; then by the path of the source and of the target. */
  lemma EdgesAreSorted(lib: Library, input: Input, rs: seq<Round>, result: Selection, i: nat, j: nat)
    requires Answered(lib, input, rs, result) && i < j < |result.edges|
    ensures var a, b := result.edges[i], result.edges[j]; var root := Coordinate(input.rootPath, "");
            || (a.from == root && b.from != root)
            || (a.from == b.from && TextPrecedes(a.to.path, b.to.path))
            || (a.from != root && b.from != root && TextPrecedes(a.from.path, b.from.path))
  {
    var a, b := result.edges[i], result.edges[j];
    AnswerIsResult(lib, input, rs, result);
    var last := rs[|rs| - 1];
    assert EdgeLt(lib, Coordinate(input.rootPath, ""))(a, b);
    CoordinateOrder(lib);
    assert !CoordinateLt(lib)(a.to, a.to) && !CoordinateLt(lib)(a.from, a.from);
    var d := EdgeHasDemand(lib, input, last, result, a);
    var f := EdgeHasDemand(lib, input, last, result, b);
    OnePerPath(last, result, a.to, b.to);
    if a.from in result.modules && b.from in result.modules {
      OnePerPath(last, result, a.from, b.from);
    }
    StringCompareMeans(a.to.path, b.to.path);
    StringCompareMeans(a.from.path, b.from.path);
  }

  lemma OnePerPath(last: Round, result: Selection, a: Coordinate, b: Coordinate)
    requires Enumerates(result.modules, Chosen(last.selected)) && a in result.modules && b in result.modules
    ensures a.path == b.path ==> a == b
  {
    assert a in Chosen(last.selected) && b in Chosen(last.selected);
  }
}
