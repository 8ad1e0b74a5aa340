/** What the rounds of Select and its answer mean. */
module GoTheorems {
  import opened Common
  import opened Orders
  import opened GoModel
  import opened GoSelection
  import opened GoSelect

  // ------------------------------------------------------------- from round to round

  lemma RoundIsOk(lib: Library, roots: set<Coordinate>, start: Modes, fetcher: Option<Fetcher>, rs: seq<Round>, i: nat)
    requires Trace(lib, roots, start, fetcher, rs) && i < |rs|
    ensures RoundOk(lib, roots, start, rs[i])
    ensures i == 0 ==> rs[i].cache == map[]
  {
    assert RoundAt(lib, roots, start, fetcher, rs, i);
  }

  lemma StepFollows(
    lib: Library, roots: set<Coordinate>, start: Modes, fetcher: Option<Fetcher>, rs: seq<Round>, i: nat)
    requires Trace(lib, roots, start, fetcher, rs) && i + 1 < |rs|
    ensures Follows(lib, fetcher, rs[i], rs[i + 1].cache)
    ensures CacheGrows(rs[i].cache, rs[i + 1].cache)
    ensures forall k :: 0 <= k < |rs[i].missing| ==> rs[i].missing[k] in rs[i + 1].cache
    ensures forall c <- rs[i + 1].cache :: c in rs[i].cache || c in rs[i].missing
  {
    assert RoundAt(lib, roots, start, fetcher, rs, i + 1);
    RoundIsOk(lib, roots, start, fetcher, rs, i);
    MergedGrows(lib, rs[i].selected, rs[i].cache, rs[i].missing, fetcher.value(rs[i].missing).value);
  }

  lemma {:induction false} CachesGrow(
    lib: Library, roots: set<Coordinate>, start: Modes, fetcher: Option<Fetcher>, rs: seq<Round>, i: nat, j: nat)
    requires Trace(lib, roots, start, fetcher, rs) && i <= j < |rs|
    ensures CacheGrows(rs[i].cache, rs[j].cache)
    decreases j - i
  {
    if i < j {
      CachesGrow(lib, roots, start, fetcher, rs, i, j - 1);
      StepFollows(lib, roots, start, fetcher, rs, j - 1);
    }
  }

  /** No coordinate is requested in two rounds, or twice in one. */
  lemma NeverRequestedTwice(
    lib: Library, roots: set<Coordinate>, start: Modes, fetcher: Option<Fetcher>, rs: seq<Round>, i: nat, k: nat,
    j: nat, l: nat)
    requires lib.Ok() && Trace(lib, roots, start, fetcher, rs) && i <= j < |rs|
    requires k < |rs[i].missing| && l < |rs[j].missing| && rs[i].missing[k] == rs[j].missing[l]
    ensures i == j && k == l
  {
    RoundIsOk(lib, roots, start, fetcher, rs, j);
    if i < j {
      StepFollows(lib, roots, start, fetcher, rs, i);
      CachesGrow(lib, roots, start, fetcher, rs, i + 1, j);
    } else {
      CoordinateOrder(lib);
      StrictlySortedDistinct(CoordinateLt(lib), rs[i].missing, k, l);
    }
  }

  lemma StrictlySortedDistinct<T(!new)>(lt: (T, T) -> bool, s: seq<T>, k: nat, l: nat)
    requires StrictOrder(lt) && StrictlySorted(lt, s) && k < |s| && l < |s| && s[k] == s[l]
    ensures k == l
  {
  }

  /** A larger cache never lowers a load mode. */
  lemma ModesGrow(lib: Library, start: Modes, cache: Cache, modes: Modes, larger: Cache, modes': Modes)
    requires CacheGrows(cache, larger) && Propagated(lib, start, cache, modes) && Propagated(lib, start, larger, modes')
    ensures FullSet(modes) <= FullSet(modes')
    ensures forall c :: Rank(Mode(modes, c)) <= Rank(Mode(modes', c))
  {
    assert Closed(lib, start, cache, FullSet(modes')) by {
      forall c <- cache ensures Legacy(lib, cache, c) == Legacy(lib, larger, c) && Deps(cache, c) == Deps(larger, c) {
      }
    }
    forall c ensures Rank(Mode(modes, c)) <= Rank(Mode(modes', c)) {
      if c !in FullSet(modes') {
        assert c !in FullSet(modes);
      }
    }
  }

  lemma DeclaredGrows(lib: Library, roots: set<Coordinate>, start: Modes, a: Round, b: Round)
    requires RoundOk(lib, roots, start, a) && RoundOk(lib, roots, start, b) && CacheGrows(a.cache, b.cache)
    ensures forall d :: IsDeclared(roots, a.cache, a.modes, d) ==> IsDeclared(roots, b.cache, b.modes, d)
    ensures forall c :: Loaded(a.cache, a.modes, c) ==>
              Loaded(b.cache, b.modes, c) && Deps(a.cache, c) == Deps(b.cache, c)
  {
    ModesGrow(lib, start, a.cache, a.modes, b.cache, b.modes);
    forall c | Loaded(a.cache, a.modes, c) ensures Loaded(b.cache, b.modes, c) && Deps(a.cache, c) == Deps(b.cache, c) {
      assert Rank(Mode(a.modes, c)) <= Rank(Mode(b.modes, c));
    }
  }

  /** The selected map only grows, and no version is lowered, from round to round. */
  lemma SelectedOnlyRises(
    lib: Library, roots: set<Coordinate>, start: Modes, fetcher: Option<Fetcher>, rs: seq<Round>, i: nat, j: nat)
    requires Trace(lib, roots, start, fetcher, rs) && i <= j < |rs|
    ensures forall p <- rs[i].selected :: p in rs[j].selected && !lib.Higher(rs[i].selected[p], rs[j].selected[p])
  {
    CachesGrow(lib, roots, start, fetcher, rs, i, j);
    RoundIsOk(lib, roots, start, fetcher, rs, i);
    RoundIsOk(lib, roots, start, fetcher, rs, j);
    DeclaredGrows(lib, roots, start, rs[i], rs[j]);
    SelectionGrows(lib, roots, rs[i].cache, rs[i].modes, rs[i].selected, rs[j].cache, rs[j].modes, rs[j].selected);
  }

  // -------------------------------------------------------------------- provenance

  /** A chain of requirements: from the root, through loaded modules. */
  ghost predicate Chain(roots: set<Coordinate>, cache: Cache, modes: Modes, p: seq<Coordinate>) {
    && p != [] && p[0] in roots
    && forall i :: 0 <= i < |p| - 1 ==> Loaded(cache, modes, p[i]) && p[i + 1] in Deps(cache, p[i])
  }

  ghost predicate Justified(roots: set<Coordinate>, cache: Cache, modes: Modes, c: Coordinate) {
    exists p :: Chain(roots, cache, modes, p) && p[|p| - 1] == c
  }

  lemma DeclaredJustified(roots: set<Coordinate>, r: Round, d: Coordinate)
    requires AllJustified(roots, r) && IsDeclared(roots, r.cache, r.modes, d)
    ensures Justified(roots, r.cache, r.modes, d)
  {
    var cache, modes := r.cache, r.modes;
    if d in roots {
      assert Chain(roots, cache, modes, [d]);
    } else {
      var c :| c in cache && Loaded(cache, modes, c) && d in Deps(cache, c);
      assert Justified(roots, cache, modes, c);
      var p :| Chain(roots, cache, modes, p) && p[|p| - 1] == c;
      assert Chain(roots, cache, modes, p + [d]);
    }
  }

  lemma ChainSurvives(roots: set<Coordinate>, a: Round, b: Round, p: seq<Coordinate>)
    requires forall c :: Loaded(a.cache, a.modes, c) ==>
              Loaded(b.cache, b.modes, c) && Deps(a.cache, c) == Deps(b.cache, c)
    requires Chain(roots, a.cache, a.modes, p)
    ensures Chain(roots, b.cache, b.modes, p)
  {
  }

  lemma JustifiedSurvives(roots: set<Coordinate>, a: Round, b: Round, c: Coordinate)
    requires forall x :: Loaded(a.cache, a.modes, x) ==>
              Loaded(b.cache, b.modes, x) && Deps(a.cache, x) == Deps(b.cache, x)
    requires Justified(roots, a.cache, a.modes, c)
    ensures Justified(roots, b.cache, b.modes, c)
  {
    var p :| Chain(roots, a.cache, a.modes, p) && p[|p| - 1] == c;
    ChainSurvives(roots, a, b, p);
  }

  ghost predicate AllJustified(roots: set<Coordinate>, r: Round) {
    forall c {:trigger Justified(roots, r.cache, r.modes, c)} :: c in r.cache ==> Justified(roots, r.cache, r.modes, c)
  }

  lemma NothingToJustify(roots: set<Coordinate>, r: Round)
    requires r.cache == map[]
    ensures AllJustified(roots, r)
  {
  }

  lemma {:induction false} CachedJustified(
    lib: Library, roots: set<Coordinate>, start: Modes, fetcher: Option<Fetcher>, rs: seq<Round>, i: nat)
    requires Trace(lib, roots, start, fetcher, rs) && i < |rs|
    ensures AllJustified(roots, rs[i])
    decreases i
  {
    if i == 0 {
      RoundIsOk(lib, roots, start, fetcher, rs, 0);
      NothingToJustify(roots, rs[0]);
    } else {
      CachedJustified(lib, roots, start, fetcher, rs, i - 1);
      StepGrows(lib, roots, start, fetcher, rs, i - 1);
      RoundIsOk(lib, roots, start, fetcher, rs, i - 1);
      RoundIsOk(lib, roots, start, fetcher, rs, i);
      StepJustified(lib, roots, start, rs[i - 1], rs[i]);
    }
  }

  lemma StepGrows(lib: Library, roots: set<Coordinate>, start: Modes, fetcher: Option<Fetcher>, rs: seq<Round>, i: nat)
    requires Trace(lib, roots, start, fetcher, rs) && i + 1 < |rs|
    ensures CacheGrows(rs[i].cache, rs[i + 1].cache)
    ensures forall c <- rs[i + 1].cache :: c in rs[i].cache || c in rs[i].missing
  {
    StepFollows(lib, roots, start, fetcher, rs, i);
  }

  lemma StepJustified(lib: Library, roots: set<Coordinate>, start: Modes, a: Round, b: Round)
    requires RoundOk(lib, roots, start, a) && RoundOk(lib, roots, start, b) && CacheGrows(a.cache, b.cache)
    requires forall c <- b.cache :: c in a.cache || c in a.missing
    requires AllJustified(roots, a)
    ensures AllJustified(roots, b)
  {
    DeclaredGrows(lib, roots, start, a, b);
    forall c <- b.cache ensures Justified(roots, b.cache, b.modes, c) {
      if c !in a.cache {
        MissingIsDeclared(lib, roots, start, a, c);
        DeclaredJustified(roots, a, c);
      } else {
        assert Justified(roots, a.cache, a.modes, c);
      }
      JustifiedSurvives(roots, a, b, c);
    }
  }

  lemma MissingIsDeclared(lib: Library, roots: set<Coordinate>, start: Modes, r: Round, c: Coordinate)
    requires RoundOk(lib, roots, start, r) && c in r.missing
    ensures IsDeclared(roots, r.cache, r.modes, c)
  {
    var i :| 0 <= i < |r.missing| && r.missing[i] == c;
    assert c in Chosen(r.selected);
  }

  /** The root and every loaded module get at least what they ask for. */
  ghost predicate Satisfied(lib: Library, roots: set<Coordinate>, r: Round) {
    && (forall d <- roots :: d.path in r.selected && !lib.Higher(d.version, r.selected[d.path]))
    && (forall m, d :: Loaded(r.cache, r.modes, m) && d in Deps(r.cache, m) ==>
          d.path in r.selected && !lib.Higher(d.version, r.selected[d.path]))
  }

  lemma RoundSatisfied(lib: Library, roots: set<Coordinate>, r: Round)
    requires IsSelection(lib, roots, r.cache, r.modes, r.selected)
    ensures Satisfied(lib, roots, r)
  {
    forall d <- roots ensures IsDeclared(roots, r.cache, r.modes, d) {
    }
    forall m, d | Loaded(r.cache, r.modes, m) && d in Deps(r.cache, m) ensures IsDeclared(roots, r.cache, r.modes, d) {
    }
  }

  /** When Select answers, the selection is a fixed point: the root and every loaded
      module get at least what they ask for, and the modules listed are exactly the
      selected ones, all with metadata at hand. */
  lemma FixedPoint(lib: Library, input: Input, start: Modes, rs: seq<Round>, result: Selection)
    requires Trace(lib, Named(input.requirements), start, input.fetcher, rs) && rs != []
    requires rs[|rs| - 1].missing == [] && Outcome(lib, input, rs, Ok(result))
    ensures var last := rs[|rs| - 1];
            && Satisfied(lib, Named(input.requirements), last)
            && (forall p <- last.selected :: Coordinate(p, last.selected[p]) in result.modules)
            && (forall m <- result.modules ::
                  m in last.cache && m.path in last.selected && last.selected[m.path] == m.version)
  {
    var last := rs[|rs| - 1];
    RoundIsOk(lib, Named(input.requirements), start, input.fetcher, rs, |rs| - 1);
    RoundSatisfied(lib, Named(input.requirements), last);
    NothingMissing(lib, last);
    forall p <- last.selected ensures Coordinate(p, last.selected[p]) in result.modules {
      assert Coordinate(p, last.selected[p]) in Chosen(last.selected);
    }
  }

  /** Every module listed was declared verbatim at the end of a finite chain of
      requirements that starts at the root and passes through loaded modules. */
  lemma Provenance(lib: Library, input: Input, start: Modes, rs: seq<Round>, result: Selection, m: Coordinate)
    requires Trace(lib, Named(input.requirements), start, input.fetcher, rs) && rs != []
    requires rs[|rs| - 1].missing == [] && Outcome(lib, input, rs, Ok(result)) && m in result.modules
    ensures Justified(Named(input.requirements), rs[|rs| - 1].cache, rs[|rs| - 1].modes, m)
  {
    FixedPoint(lib, input, start, rs, result);
    CachedJustified(lib, Named(input.requirements), start, input.fetcher, rs, |rs| - 1);
  }

  lemma NothingMissing(lib: Library, r: Round)
    requires IsMissing(lib, r.selected, r.cache, r.missing) && r.missing == []
    ensures Chosen(r.selected) <= r.cache.Keys
  {
    forall c <- Chosen(r.selected) ensures c in r.cache {
      assert c in Chosen(r.selected) - r.cache.Keys ==> c in r.missing;
    }
  }

  /** Every edge leads to a listed module with a version, from the root or from a listed
      module. */
  lemma EdgesAreListed(lib: Library, input: Input, start: Modes, rs: seq<Round>, result: Selection, e: Edge)
    requires lib.Ok() && Rejected(lib, input).None?
    requires Trace(lib, Named(input.requirements), start, input.fetcher, rs) && rs != []
    requires rs[|rs| - 1].missing == [] && Outcome(lib, input, rs, Ok(result)) && e in result.edges
    ensures e.to in result.modules && e.to.version != ""
    ensures e.from == Coordinate(input.rootPath, "") || e.from in result.modules
  {
    var roots, last := Named(input.requirements), rs[|rs| - 1];
    RoundIsOk(lib, roots, start, input.fetcher, rs, |rs| - 1);
    CachedValid(lib, roots, start, input.fetcher, rs, |rs| - 1);
    EdgeIsListed(lib, Coordinate(input.rootPath, ""), roots, last, e);
  }

  lemma EdgeIsListed(lib: Library, root: Coordinate, roots: set<Coordinate>, r: Round, e: Edge)
    requires !lib.validVersion("") && AllCoordinatesValid(lib, roots) && AllValid(lib, r.cache)
    requires IsSelection(lib, roots, r.cache, r.modes, r.selected)
    requires IsEdge(root, roots, r.selected, r.cache, r.modes, e)
    ensures e.to in Chosen(r.selected) && e.to.version != ""
    ensures e.from == root || e.from in Chosen(r.selected)
  {
    var d :| Target(r.selected, d) == e.to && IsDeclared(roots, r.cache, r.modes, d);
    assert IsDeclared(roots, r.cache, r.modes, e.to);
  }

  ghost predicate AllValid(lib: Library, cache: Cache) {
    forall c <- cache :: AllCoordinatesValid(lib, Deps(cache, c))
  }

  lemma {:induction false} CachedValid(
    lib: Library, roots: set<Coordinate>, start: Modes, fetcher: Option<Fetcher>, rs: seq<Round>, i: nat)
    requires Trace(lib, roots, start, fetcher, rs) && i < |rs|
    ensures AllValid(lib, rs[i].cache)
    decreases i
  {
    if i == 0 {
      RoundIsOk(lib, roots, start, fetcher, rs, i);
    } else {
      CachedValid(lib, roots, start, fetcher, rs, i - 1);
      StepFollows(lib, roots, start, fetcher, rs, i - 1);
      StepValid(lib, fetcher, rs[i - 1], rs[i].cache);
    }
  }

  lemma StepValid(lib: Library, fetcher: Option<Fetcher>, a: Round, cache: Cache)
    requires Follows(lib, fetcher, a, cache) && CacheGrows(a.cache, cache)
    requires AllValid(lib, a.cache)
    ensures AllValid(lib, cache)
  {
    forall c <- cache ensures AllCoordinatesValid(lib, Deps(cache, c)) {
      if c in a.cache {
        assert Deps(cache, c) == Deps(a.cache, c);
      } else {
        assert EntryError(lib, a.missing, fetcher.value(a.missing).value, c).None?;
      }
    }
  }

  /** Below Go 1.17 there is no pruning: every cached coordinate is loaded in full. */
  lemma {:induction false} LegacyRootLoadsAll(
    lib: Library, rootGo: string, roots: set<Coordinate>, fetcher: Option<Fetcher>, rs: seq<Round>, i: nat)
    requires !lib.pruning(rootGo) && Trace(lib, roots, StartModes(lib, rootGo, roots), fetcher, rs) && i < |rs|
    ensures forall c <- rs[i].cache :: Mode(rs[i].modes, c) == LoadFull
    decreases i
  {
    var start := StartModes(lib, rootGo, roots);
    RoundIsOk(lib, roots, start, fetcher, rs, i);
    if i > 0 {
      LegacyRootLoadsAll(lib, rootGo, roots, fetcher, rs, i - 1);
      StepFollows(lib, roots, start, fetcher, rs, i - 1);
      RoundIsOk(lib, roots, start, fetcher, rs, i - 1);
      StepLoadsAll(lib, roots, start, rs[i - 1], rs[i]);
    }
  }

  lemma StepLoadsAll(lib: Library, roots: set<Coordinate>, start: Modes, a: Round, b: Round)
    requires RoundOk(lib, roots, start, a) && RoundOk(lib, roots, start, b) && CacheGrows(a.cache, b.cache)
    requires forall c <- b.cache :: c in a.cache || c in a.missing
    requires roots <= FullSet(start) && forall c <- a.cache :: Mode(a.modes, c) == LoadFull
    ensures forall c <- b.cache :: Mode(b.modes, c) == LoadFull
  {
    ModesGrow(lib, start, a.cache, a.modes, b.cache, b.modes);
    forall c <- b.cache ensures c in FullSet(b.modes) {
      if c in a.cache {
        assert c in FullSet(a.modes);
      } else {
        MissingIsDeclared(lib, roots, start, a, c);
        FullDeclares(lib, roots, start, a, c);
      }
    }
  }

  lemma FullDeclares(lib: Library, roots: set<Coordinate>, start: Modes, r: Round, d: Coordinate)
    requires RoundOk(lib, roots, start, r) && roots <= FullSet(start)
    requires forall c <- r.cache :: Mode(r.modes, c) == LoadFull
    requires IsDeclared(roots, r.cache, r.modes, d)
    ensures d in FullSet(r.modes)
  {
    if d !in roots {
      var c :| c in r.cache && Loaded(r.cache, r.modes, c) && d in Deps(r.cache, c);
      assert c in FullSet(r.modes);
    }
  }

  // ------------------------------------------------------------- order independence

  /** Metadata that differs only in the order or repetition of its requirements. */
  predicate SameMetadata(a: Metadata, b: Metadata) {
    a.path == b.path && a.goVersion == b.goVersion && Named(a.requirements) == Named(b.requirements)
  }

  ghost predicate SameCache(a: Cache, b: Cache) {
    a.Keys == b.Keys && forall c <- a :: SameMetadata(a[c], b[c])
  }

  ghost predicate SameAnswer(a: Result<Cache, MvsError>, b: Result<Cache, MvsError>) {
    a.Ok? == b.Ok? && (a.Ok? && b.Ok? ==> SameCache(a.value, b.value))
  }

  /** Two calls with permuted or duplicated requirement lists. */
  ghost predicate SameInput(a: Input, b: Input) {
    && a.rootPath == b.rootPath && a.rootGo == b.rootGo && Named(a.requirements) == Named(b.requirements)
    && a.fetcher.Some? == b.fetcher.Some?
    && (a.fetcher.Some? && b.fetcher.Some? ==>
          forall asked :: SameAnswer(a.fetcher.value(asked), b.fetcher.value(asked)))
  }

  lemma SamePropagation(lib: Library, start: Modes, a: Cache, b: Cache, modes: Modes)
    requires SameCache(a, b) && Propagated(lib, start, b, modes)
    ensures Propagated(lib, start, a, modes)
  {
    forall c <- a ensures Legacy(lib, a, c) == Legacy(lib, b, c) && Deps(a, c) == Deps(b, c) {
      assert SameMetadata(a[c], b[c]);
    }
    assert forall full :: Closed(lib, start, a, full) ==> Closed(lib, start, b, full);
  }

  lemma SameDeclarations(roots: set<Coordinate>, a: Round, b: Round)
    requires SameCache(a.cache, b.cache) && forall c :: Mode(a.modes, c) == Mode(b.modes, c)
    ensures forall d :: IsDeclared(roots, a.cache, a.modes, d) <==> IsDeclared(roots, b.cache, b.modes, d)
    ensures forall c ::
              Loaded(a.cache, a.modes, c) == Loaded(b.cache, b.modes, c) && Deps(a.cache, c) == Deps(b.cache, c)
  {
    forall c
      ensures Loaded(a.cache, a.modes, c) == Loaded(b.cache, b.modes, c) && Deps(a.cache, c) == Deps(b.cache, c) {
      if c in a.cache {
        assert SameMetadata(a.cache[c], b.cache[c]);
      }
    }
    forall d ensures IsDeclared(roots, a.cache, a.modes, d) <==> IsDeclared(roots, b.cache, b.modes, d) {
      SameDeclaration(roots, a, b, d);
      SameDeclaration(roots, b, a, d);
    }
  }

  lemma SameDeclaration(roots: set<Coordinate>, a: Round, b: Round, d: Coordinate)
    requires a.cache.Keys == b.cache.Keys
    requires forall c ::
              Loaded(a.cache, a.modes, c) == Loaded(b.cache, b.modes, c) && Deps(a.cache, c) == Deps(b.cache, c)
    ensures IsDeclared(roots, a.cache, a.modes, d) ==> IsDeclared(roots, b.cache, b.modes, d)
  {
    if IsDeclared(roots, a.cache, a.modes, d) && d !in roots {
      var c :| c in a.cache && Loaded(a.cache, a.modes, c) && d in Deps(a.cache, c);
      assert c in b.cache;
    }
  }

  /** Rounds over equivalent caches agree on modes, selection and what is missing. */
  lemma SameRound(lib: Library, roots: set<Coordinate>, start: Modes, a: Round, b: Round)
    requires lib.Ok() && SameCache(a.cache, b.cache) && RoundOk(lib, roots, start, a) && RoundOk(lib, roots, start, b)
    ensures forall c :: Mode(a.modes, c) == Mode(b.modes, c)
    ensures a.selected == b.selected && a.missing == b.missing
  {
    SamePropagation(lib, start, a.cache, b.cache, b.modes);
    PropagationUnique(lib, start, a.cache, a.modes, b.modes);
    SameDeclarations(roots, a, b);
    SelectionAgrees(lib, roots, a, b);
    CoordinateOrder(lib);
    SortedUnique(CoordinateLt(lib), a.missing, b.missing, Chosen(a.selected) - a.cache.Keys);
  }

  lemma SelectionAgrees(lib: Library, roots: set<Coordinate>, a: Round, b: Round)
    requires lib.Ok() && forall d :: IsDeclared(roots, a.cache, a.modes, d) <==> IsDeclared(roots, b.cache, b.modes, d)
    requires IsSelection(lib, roots, a.cache, a.modes, a.selected)
    requires IsSelection(lib, roots, b.cache, b.modes, b.selected)
    ensures a.selected == b.selected
  {
    assert IsSelection(lib, roots, a.cache, a.modes, b.selected);
    SelectionUnique(lib, roots, a.cache, a.modes, a.selected, b.selected);
  }

  lemma SameMerged(a: Cache, b: Cache, requested: seq<Coordinate>, x: Cache, y: Cache)
    requires SameCache(a, b) && SameCache(x, y)
    ensures SameCache(Merged(a, requested, x), Merged(b, requested, y))
  {
  }

  /** Two rounds a caller cannot tell apart. */
  ghost predicate SameView(a: Round, b: Round) {
    && SameCache(a.cache, b.cache) && a.missing == b.missing && a.selected == b.selected
    && forall c :: Mode(a.modes, c) == Mode(b.modes, c)
  }

  lemma SameNextCache(lib: Library, a: Input, b: Input, r: Round, s: Round, cache: Cache, cache': Cache)
    requires SameInput(a, b) && SameCache(r.cache, s.cache) && r.missing == s.missing
    requires Follows(lib, a.fetcher, r, cache) && Follows(lib, b.fetcher, s, cache')
    ensures SameCache(cache, cache')
  {
    var asked := r.missing;
    assert SameAnswer(a.fetcher.value(asked), b.fetcher.value(asked));
    SameMerged(r.cache, s.cache, asked, a.fetcher.value(asked).value, b.fetcher.value(asked).value);
  }

  lemma JustFollows(
    lib: Library, roots: set<Coordinate>, start: Modes, fetcher: Option<Fetcher>, rs: seq<Round>, i: nat)
    requires Trace(lib, roots, start, fetcher, rs) && i + 1 < |rs|
    ensures Follows(lib, fetcher, rs[i], rs[i + 1].cache)
  {
    assert RoundAt(lib, roots, start, fetcher, rs, i + 1);
  }

  lemma {:induction false} SameCaches(
    lib: Library, a: Input, b: Input, start: Modes, rs: seq<Round>, ss: seq<Round>, i: nat)
    requires lib.Ok() && SameInput(a, b)
    requires Trace(lib, Named(a.requirements), start, a.fetcher, rs)
    requires Trace(lib, Named(b.requirements), start, b.fetcher, ss)
    requires i < |rs| && i < |ss|
    ensures SameCache(rs[i].cache, ss[i].cache)
    decreases i, 0
  {
    var roots := Named(a.requirements);
    if i == 0 {
      RoundIsOk(lib, roots, start, a.fetcher, rs, 0);
      RoundIsOk(lib, roots, start, b.fetcher, ss, 0);
    } else {
      SameTrace(lib, a, b, start, rs, ss, i - 1);
      JustFollows(lib, roots, start, a.fetcher, rs, i - 1);
      JustFollows(lib, roots, start, b.fetcher, ss, i - 1);
      SameNextCache(lib, a, b, rs[i - 1], ss[i - 1], rs[i].cache, ss[i].cache);
    }
  }

  lemma {:induction false} SameTrace(
    lib: Library, a: Input, b: Input, start: Modes, rs: seq<Round>, ss: seq<Round>, i: nat)
    requires lib.Ok() && SameInput(a, b)
    requires Trace(lib, Named(a.requirements), start, a.fetcher, rs)
    requires Trace(lib, Named(b.requirements), start, b.fetcher, ss)
    requires i < |rs| && i < |ss|
    ensures SameView(rs[i], ss[i])
    decreases i, 1
  {
    SameCaches(lib, a, b, start, rs, ss, i);
    RoundIsOk(lib, Named(a.requirements), start, a.fetcher, rs, i);
    RoundIsOk(lib, Named(a.requirements), start, b.fetcher, ss, i);
    SameRound(lib, Named(a.requirements), start, rs[i], ss[i]);
  }

  /** Errors that differ at most in which invalid requirement of the same owner they name. */
  predicate SameError(x: MvsError, y: MvsError) {
    x == y || (x.InvalidRequirement? && y.InvalidRequirement? && x.owner == y.owner)
  }

  predicate SameErrors(x: Option<MvsError>, y: Option<MvsError>) {
    x.Some? == y.Some? && (x.Some? && y.Some? ==> SameError(x.value, y.value))
  }

  predicate SameOutcome(x: Result<Selection, MvsError>, y: Result<Selection, MvsError>) {
    x == y || (x.Err? && y.Err? && SameError(x.error, y.error))
  }

  lemma {:induction false} SameRoundError(
    lib: Library, requested: seq<Coordinate>, x: Cache, y: Cache, returned: seq<Coordinate>, n: nat, m: nat)
    requires SameCache(x, y) && n <= |returned| && m <= |requested| && forall c <- returned :: c in x
    ensures SameErrors(RoundError(lib, requested, x, returned, n, m), RoundError(lib, requested, y, returned, n, m))
    decreases |returned| - n, |requested| - m
  {
    if n < |returned| {
      assert SameMetadata(x[returned[n]], y[returned[n]]);
      SameRoundError(lib, requested, x, y, returned, n + 1, m);
    } else if m < |requested| {
      SameRoundError(lib, requested, x, y, returned, n, m + 1);
    }
  }

  lemma {:induction false} GoodFetchNoError(
    lib: Library, requested: seq<Coordinate>, fetched: Cache, returned: seq<Coordinate>, n: nat, m: nat)
    requires GoodFetch(lib, requested, fetched) && n <= |returned| && m <= |requested|
    requires forall c <- returned :: c in fetched
    ensures RoundError(lib, requested, fetched, returned, n, m).None?
    decreases |returned| - n, |requested| - m
  {
    if n < |returned| {
      GoodFetchNoError(lib, requested, fetched, returned, n + 1, m);
    } else if m < |requested| {
      GoodFetchNoError(lib, requested, fetched, returned, n, m + 1);
    }
  }

  /** The call with fewer rounds could not have stopped where it did. */
  lemma SameLength(
    lib: Library, a: Input, b: Input, start: Modes, rs: seq<Round>, ss: seq<Round>, out: Result<Selection, MvsError>)
    requires lib.Ok() && SameInput(a, b)
    requires Trace(lib, Named(a.requirements), start, a.fetcher, rs)
    requires Trace(lib, Named(b.requirements), start, b.fetcher, ss)
    requires rs != [] && Outcome(lib, a, rs, out)
    ensures |rs| >= |ss|
  {
    if |rs| < |ss| {
      var i := |rs| - 1;
      SameTrace(lib, a, b, start, rs, ss, i);
      StepFollows(lib, Named(b.requirements), start, b.fetcher, ss, i);
      var asked := rs[i].missing;
      assert SameAnswer(a.fetcher.value(asked), b.fetcher.value(asked));
      var x, y := a.fetcher.value(asked).value, b.fetcher.value(asked).value;
      var returned :| SortedKeys(lib, x, returned) && RoundError(lib, asked, x, returned, 0, 0).Some?;
      SameRoundError(lib, asked, x, y, returned, 0, 0);
      GoodFetchNoError(lib, asked, y, returned, 0, 0);
    }
  }

  lemma SameResult(
    lib: Library, root: Coordinate, roots: set<Coordinate>, a: Round, b: Round, x: Selection, y: Selection)
    requires lib.Ok() && a.selected == b.selected && SameCache(a.cache, b.cache)
    requires forall c :: Mode(a.modes, c) == Mode(b.modes, c)
    requires IsResult(lib, root, roots, a.selected, a.cache, a.modes, x)
    requires IsResult(lib, root, roots, b.selected, b.cache, b.modes, y)
    ensures x == y
  {
    CoordinateOrder(lib);
    EdgeOrder(lib, root);
    SortedUnique(CoordinateLt(lib), x.modules, y.modules, Chosen(a.selected));
    SameDeclarations(roots, a, b);
    forall e ensures e in x.edges <==> e in y.edges {
      assert IsEdge(root, roots, a.selected, a.cache, a.modes, e) <==>
             IsEdge(root, roots, b.selected, b.cache, b.modes, e);
    }
    var edges := set e <- x.edges;
    SortedUnique(EdgeLt(lib, root), x.edges, y.edges, edges);
  }

  /** Permuting or repeating root or metadata requirements does not change the answer, and
      changes an error at most in which invalid requirement of the same owner it names. */
  lemma OrderIsIrrelevant(
    lib: Library, a: Input, b: Input, rs: seq<Round>, ss: seq<Round>, x: Result<Selection, MvsError>,
    y: Result<Selection, MvsError>)
    requires lib.Ok() && SameInput(a, b) && rs != [] && ss != []
    requires Trace(lib, Named(a.requirements), StartModes(lib, a.rootGo, Named(a.requirements)), a.fetcher, rs)
    requires Outcome(lib, a, rs, x)
    requires Trace(lib, Named(b.requirements), StartModes(lib, b.rootGo, Named(b.requirements)), b.fetcher, ss)
    requires Outcome(lib, b, ss, y)
    ensures SameOutcome(x, y)
  {
    var roots := Named(a.requirements);
    var start := StartModes(lib, a.rootGo, roots);
    SameLength(lib, a, b, start, rs, ss, x);
    SameLength(lib, b, a, start, ss, rs, y);
    var i := |rs| - 1;
    SameTrace(lib, a, b, start, rs, ss, i);
    if rs[i].missing == [] {
      SameResult(lib, Coordinate(a.rootPath, ""), roots, rs[i], ss[i], x.value, y.value);
    } else if a.fetcher.Some? {
      SameComplaint(lib, a, b, rs[i].missing, x, y);
    }
  }

  ghost predicate Complains(
    lib: Library, asked: seq<Coordinate>, answer: Result<Cache, MvsError>, out: Result<Selection, MvsError>) {
    match answer
    case Err(_) => out == Err(FetchFailed)
    case Ok(fetched) =>
      exists returned ::
        && SortedKeys(lib, fetched, returned)
        && RoundError(lib, asked, fetched, returned, 0, 0).Some?
        && out == Err(RoundError(lib, asked, fetched, returned, 0, 0).value)
  }

  lemma SameComplaint(
    lib: Library, a: Input, b: Input, asked: seq<Coordinate>, x: Result<Selection, MvsError>,
    y: Result<Selection, MvsError>)
    requires lib.Ok() && SameInput(a, b) && a.fetcher.Some?
    requires Complains(lib, asked, a.fetcher.value(asked), x) && Complains(lib, asked, b.fetcher.value(asked), y)
    ensures SameOutcome(x, y)
  {
    assert SameAnswer(a.fetcher.value(asked), b.fetcher.value(asked));
    if a.fetcher.value(asked).Ok? {
      var f, g := a.fetcher.value(asked).value, b.fetcher.value(asked).value;
      var r :| SortedKeys(lib, f, r) && RoundError(lib, asked, f, r, 0, 0).Some? &&
               x == Err(RoundError(lib, asked, f, r, 0, 0).value);
      var s :| SortedKeys(lib, g, s) && RoundError(lib, asked, g, s, 0, 0).Some? &&
               y == Err(RoundError(lib, asked, g, s, 0, 0).value);
      CoordinateOrder(lib);
      SortedUnique(CoordinateLt(lib), r, s, f.Keys);
      SameRoundError(lib, asked, f, g, r, 0, 0);
    }
  }

  /** The checks before the first round agree in the same sense. */
  lemma RejectionsAgree(lib: Library, a: Input, b: Input)
    requires SameInput(a, b)
    ensures SameErrors(Rejected(lib, a), Rejected(lib, b))
  {
  }

  predicate Invalid(lib: Library, c: Coordinate) {
    !lib.ValidCoordinate(c.path, c.version)
  }

  /** Which requirement is named is independent of the order exactly when only one named
      coordinate is invalid. */
  lemma NamesTheSameExactly(lib: Library, rs: seq<Requirement>)
    requires !AllCoordinatesValid(lib, Named(rs))
    ensures (forall ss: seq<Requirement> {:trigger Named(ss)} ::
               Named(ss) == Named(rs) ==> FirstInvalid(lib, ss) == FirstInvalid(lib, rs)) <==>
            forall c <- Named(rs), d <- Named(rs) :: Invalid(lib, c) && Invalid(lib, d) ==> c == d
  {
    var first := FirstInvalid(lib, rs);
    if c :| c in Named(rs) && Invalid(lib, c) && c != first {
      var ss := OtherComesFirst(lib, rs, c);
      assert FirstInvalid(lib, ss) != FirstInvalid(lib, rs);
    } else {
      forall ss: seq<Requirement> | Named(ss) == Named(rs) ensures FirstInvalid(lib, ss) == first {
        assert FirstInvalid(lib, ss) in Named(rs) && Invalid(lib, FirstInvalid(lib, ss));
      }
    }
  }

  /** Any invalid coordinate of a list is the first one of another list of the same. */
  lemma OtherComesFirst(lib: Library, rs: seq<Requirement>, c: Coordinate) returns (ss: seq<Requirement>)
    requires c in Named(rs) && Invalid(lib, c)
    ensures Named(ss) == Named(rs) && !AllCoordinatesValid(lib, Named(ss)) && FirstInvalid(lib, ss) == c
  {
    var r := Requirement(c.path, c.version, false);
    ss := [r] + rs;
    NamedSplit(ss);
    assert ss[0] == r && ss[1..] == rs && CoordinateOf(r) == c;
    assert Named(ss) == Named(rs);
  }

  /** Two different invalid requirements: the error depends on which comes first. */
  lemma SwappedPair(lib: Library, r: Requirement, s: Requirement)
    requires Invalid(lib, CoordinateOf(r)) && Invalid(lib, CoordinateOf(s)) && CoordinateOf(r) != CoordinateOf(s)
    ensures Named([r, s]) == Named([s, r])
    ensures RequirementError(lib, "root", [r, s]) != RequirementError(lib, "root", [s, r])
  {
    RequirementErrorStep(lib, "root", [r, s]);
    RequirementErrorStep(lib, "root", [s, r]);
  }
}
