/** Select and the steps it is made of, as the code performs them. */
module GoSelection {
  import opened Common
  import opened Orders
  import opened GoModel

  datatype MvsError =
    | InvalidRoot | InvalidGoDirective | InvalidRequirement(owner: string, at: Coordinate)
    | CompareFailed | NoFetcher | FetchFailed
    | UnexpectedMetadata(at: Coordinate) | WrongModule(at: Coordinate) | NotReturned(at: Coordinate)

  datatype Edge = Edge(from: Coordinate, to: Coordinate)

  datatype Selection = Selection(modules: seq<Coordinate>, edges: seq<Edge>)

  type Fetcher = seq<Coordinate> -> Result<Cache, MvsError>

  // ------------------------------------------------------------------- load modes

  function Rank(m: LoadMode): nat {
    match m case LoadNone => 0 case LoadDirect => 1 case LoadFull => 2
  }

  method PromoteLoadMode(modes: Modes, c: Coordinate, mode: LoadMode) returns (modes': Modes, changed: bool)
    ensures changed <==> Rank(Mode(modes, c)) < Rank(mode)
    ensures modes' == if changed then modes[c := mode] else modes
  {
    if Rank(Mode(modes, c)) >= Rank(mode) {
      return modes, false;
    }
    return modes[c := mode], true;
  }

  /** The rules hold at one cached module. */
  predicate LocallyClosed(lib: Library, cache: Cache, modes: Modes, c: Coordinate) {
    && (Legacy(lib, cache, c) ==> Mode(modes, c) != LoadNone)
    && (Legacy(lib, cache, c) || Mode(modes, c) == LoadFull ==> Deps(cache, c) <= FullSet(modes))
  }

  /** In every closed set. */
  ghost predicate Forced(lib: Library, start: Modes, cache: Cache, c: Coordinate) {
    forall full :: Closed(lib, start, cache, full) ==> c in full
  }

  /** Between `start` and the result of the propagation. */
  ghost predicate Partial(lib: Library, start: Modes, cache: Cache, modes: Modes) {
    && FullSet(start) <= FullSet(modes)
    && (forall c {:trigger Forced(lib, start, cache, c)} :: c in FullSet(modes) ==> Forced(lib, start, cache, c))
    && (forall c {:trigger Mode(modes, c)} :: c !in FullSet(modes) ==> Mode(modes, c) == Mode(start, c))
  }

  lemma StartIsPartial(lib: Library, start: Modes, cache: Cache)
    ensures Partial(lib, start, cache, start)
  {
    forall c <- FullSet(start) ensures Forced(lib, start, cache, c) {
    }
  }

  method PromoteForced(
    lib: Library, ghost start: Modes, ghost cache: Cache, modes: Modes, c: Coordinate)
    returns (modes': Modes, changed: bool)
    requires Partial(lib, start, cache, modes) && Forced(lib, start, cache, c)
    ensures Partial(lib, start, cache, modes') && Promoted(modes, modes', {c})
    ensures changed <==> c !in FullSet(modes)
    ensures !changed ==> modes' == modes
  {
    modes', changed := PromoteLoadMode(modes, c, LoadFull);
    assert FullSet(modes') == FullSet(modes) + {c};
    forall d | d !in FullSet(modes') ensures Mode(modes', d) == Mode(start, d) {
      assert d !in FullSet(modes) && d != c && Mode(modes', d) == Mode(modes, d);
    }
  }

  /** Exactly these coordinates were made full. */
  ghost predicate Promoted(modes: Modes, modes': Modes, named: set<Coordinate>) {
    FullSet(modes') == FullSet(modes) + named && modes'.Keys <= modes.Keys + named
  }

  lemma PromotedNext(a: Modes, b: Modes, c: Modes, named: set<Coordinate>, d: Coordinate)
    requires Promoted(a, b, named) && Promoted(b, c, {d})
    ensures Promoted(a, c, named + {d})
  {
  }

  /** A module whose rules apply forces its requirements into every closed set. */
  lemma DepsForced(lib: Library, start: Modes, cache: Cache, c: Coordinate, d: Coordinate)
    requires c in cache && d in Deps(cache, c)
    requires Legacy(lib, cache, c) || Forced(lib, start, cache, c)
    ensures Forced(lib, start, cache, d)
  {
  }

  /** All coordinates the propagation can touch. */
  ghost function Reach(cache: Cache, modes: Modes): set<Coordinate> {
    modes.Keys + cache.Keys + set c, d | c in cache && d in Deps(cache, c) :: d
  }

  lemma InReach(cache: Cache, modes: Modes, c: Coordinate)
    requires c in cache
    ensures {c} + Deps(cache, c) <= Reach(cache, modes)
  {
  }

  lemma AllDepsForced(lib: Library, start: Modes, cache: Cache, modes: Modes, c: Coordinate)
    requires Partial(lib, start, cache, modes) && c in cache
    requires Legacy(lib, cache, c) || Mode(modes, c) == LoadFull
    ensures forall d <- Deps(cache, c) :: Forced(lib, start, cache, d)
  {
    assert Mode(modes, c) == LoadFull ==> c in FullSet(modes);
    forall d <- Deps(cache, c) ensures Forced(lib, start, cache, d) {
      DepsForced(lib, start, cache, c, d);
    }
  }

  method PromoteAll(
    lib: Library, ghost start: Modes, ghost cache: Cache, modes: Modes, rs: seq<Requirement>)
    returns (modes': Modes, changed: bool)
    requires Partial(lib, start, cache, modes)
    requires forall d <- Named(rs) :: Forced(lib, start, cache, d)
    ensures Partial(lib, start, cache, modes') && Promoted(modes, modes', Named(rs))
    ensures if changed then FullSet(modes') != FullSet(modes) else modes' == modes
  {
    modes', changed := modes, false;
    ghost var named: set<Coordinate> := {};
    var i := 0;
    while i < |rs|
      invariant 0 <= i <= |rs| && named == Named(rs[..i])
      invariant Partial(lib, start, cache, modes') && Promoted(modes, modes', named)
      invariant if changed then exists d <- named :: d !in FullSet(modes) else modes' == modes
    {
      NamedNext(rs, i);
      ghost var before := modes';
      var promoted;
      modes', promoted := PromoteForced(lib, start, cache, modes', CoordinateOf(rs[i]));
      PromotedNext(modes, before, modes', named, CoordinateOf(rs[i]));
      changed := changed || promoted;
      named := named + {CoordinateOf(rs[i])};
      i := i + 1;
    }
    assert rs[..|rs|] == rs;
  }

  lemma NamedNext(rs: seq<Requirement>, i: nat)
    requires i < |rs|
    ensures Named(rs[..i + 1]) == Named(rs[..i]) + {CoordinateOf(rs[i])}
    ensures CoordinateOf(rs[i]) in Named(rs) && Named(rs[..i]) <= Named(rs)
  {
    assert rs[..i + 1] == rs[..i] + [rs[i]];
    assert rs[i] in rs;
  }

  /** One visit of a cached module. */
  method VisitModule(
    lib: Library, ghost start: Modes, cache: Cache, modes: Modes, c: Coordinate)
    returns (modes': Modes, changed: bool)
    requires Partial(lib, start, cache, modes) && c in cache
    ensures Partial(lib, start, cache, modes')
    ensures FullSet(modes) <= FullSet(modes') && modes'.Keys <= modes.Keys + {c} + Deps(cache, c)
    ensures changed ==> FullSet(modes) < FullSet(modes')
    ensures !changed ==> modes' == modes && LocallyClosed(lib, cache, modes, c)
  {
    modes', changed := modes, false;
    var mode := Mode(modes, c);
    if mode == LoadNone && !lib.pruning(cache[c].goVersion) {
      assert c !in FullSet(modes);
      assert Forced(lib, start, cache, c);
      modes', changed := PromoteForced(lib, start, cache, modes', c);
      assert c in FullSet(modes');
      mode := LoadFull;
    }
    if mode == LoadNone {
      return;
    }
    if mode == LoadFull || !lib.pruning(cache[c].goVersion) {
      var expanded;
      AllDepsForced(lib, start, cache, modes', c);
      modes', expanded := PromoteAll(lib, start, cache, modes', cache[c].requirements);
      changed := changed || expanded;
    }
  }

  method OnePass(
    lib: Library, ghost start: Modes, cache: Cache, modes: Modes, order: seq<Coordinate>)
    returns (modes': Modes, changed: bool)
    requires Partial(lib, start, cache, modes) && Enumerates(order, cache.Keys)
    ensures Partial(lib, start, cache, modes')
    ensures FullSet(modes) <= FullSet(modes') && modes'.Keys <= Reach(cache, modes)
    ensures changed ==> FullSet(modes) < FullSet(modes')
    ensures !changed ==> modes' == modes && forall i :: 0 <= i < |order| ==> LocallyClosed(lib, cache, modes, order[i])
  {
    modes', changed := modes, false;
    var i := 0;
    while i < |order|
      invariant 0 <= i <= |order|
      invariant Partial(lib, start, cache, modes')
      invariant FullSet(modes) <= FullSet(modes') && modes'.Keys <= Reach(cache, modes)
      invariant changed ==> FullSet(modes) < FullSet(modes')
      invariant !changed ==> modes' == modes && forall k :: 0 <= k < i ==> LocallyClosed(lib, cache, modes, order[k])
    {
      var visited;
      assert order[i] in cache;
      InReach(cache, modes, order[i]);
      modes', visited := VisitModule(lib, start, cache, modes', order[i]);
      changed := changed || visited;
      i := i + 1;
    }
  }

  lemma NothingChanged(lib: Library, start: Modes, cache: Cache, modes: Modes, order: seq<Coordinate>)
    requires Partial(lib, start, cache, modes) && Enumerates(order, cache.Keys)
    requires forall i :: 0 <= i < |order| ==> LocallyClosed(lib, cache, modes, order[i])
    ensures Propagated(lib, start, cache, modes)
  {
    forall c <- cache ensures LocallyClosed(lib, cache, modes, c) {
      assert c in order;
    }
    forall c <- cache | Legacy(lib, cache, c) && Mode(start, c) == LoadNone ensures c in FullSet(modes) {
      assert c !in FullSet(modes) ==> Mode(modes, c) == LoadNone;
    }
    forall full | Closed(lib, start, cache, full) ensures FullSet(modes) <= full {
      forall c <- FullSet(modes) ensures c in full {
        assert Forced(lib, start, cache, c);
      }
    }
  }

  /** Repeats passes over the cached modules, in any order, until nothing changes. The
      result is the least closure. */
  method PropagateLoadModes(lib: Library, start: Modes, cache: Cache, order: seq<Coordinate>) returns (modes: Modes)
    requires Enumerates(order, cache.Keys)
    ensures Propagated(lib, start, cache, modes)
  {
    modes := start;
    var changed := true;
    ghost var reach := Reach(cache, start);
    StartIsPartial(lib, start, cache);
    while changed
      invariant Partial(lib, start, cache, modes) && modes.Keys <= reach
      invariant !changed ==> forall i :: 0 <= i < |order| ==> LocallyClosed(lib, cache, modes, order[i])
      decreases |reach| - |FullSet(modes)|, changed
    {
      ghost var before := modes;
      modes, changed := OnePass(lib, start, cache, modes, order);
      SubsetSize(FullSet(before), reach);
      SubsetSize(FullSet(modes), reach);
      if changed {
        ProperSubsetSize(FullSet(before), FullSet(modes));
      }
    }
    NothingChanged(lib, start, cache, modes, order);
  }

  lemma ProperSubsetSize<T>(a: set<T>, b: set<T>)
    requires a < b
    ensures |a| < |b|
  {
    var x :| x in b && x !in a;
    SubsetSize(a, b - {x});
  }

  // ---------------------------------------------------------------- selected versions

  /** The requirements read so far, as a selection would see them. */
  ghost predicate Covers(lib: Library, seen: set<Coordinate>, selected: map<string, string>) {
    && (forall d <- seen :: d.path in selected && !lib.Higher(d.version, selected[d.path]))
    && (forall p <- selected :: Coordinate(p, selected[p]) in seen)
  }

  ghost predicate VersionsValid(lib: Library, cs: set<Coordinate>) {
    forall c <- cs :: lib.validVersion(c.version)
  }

  /** Keeps the higher of two versions of a path; two valid versions always compare. */
  method SelectHigher(
    lib: Library, selected: map<string, string>, r: Requirement, ghost seen: set<Coordinate>)
    returns (out: Result<map<string, string>, MvsError>)
    requires lib.Ok() && Covers(lib, seen, selected)
    ensures out.Ok? ==> Covers(lib, seen + {CoordinateOf(r)}, out.value)
    ensures VersionsValid(lib, seen + {CoordinateOf(r)}) ==> out.Ok?
  {
    StringOrder(r.version, r.version);
    if r.path !in selected {
      return Ok(selected[r.path := r.version]);
    }
    var current := selected[r.path];
    assert Coordinate(r.path, current) in seen && CoordinateOf(r) in seen + {CoordinateOf(r)};
    if !lib.validVersion(r.version) || !lib.validVersion(current) {
      return Err(CompareFailed);
    }
    StringOrder(r.version, current);
    var comparison := lib.compare(r.version, current);
    if comparison > 0 || (comparison == 0 && StringCompare(r.version, current) > 0) {
      HigherReplaces(lib, selected, r, seen);
      return Ok(selected[r.path := r.version]);
    }
    return Ok(selected);
  }

  lemma HigherReplaces(lib: Library, selected: map<string, string>, r: Requirement, seen: set<Coordinate>)
    requires lib.Ok() && Covers(lib, seen, selected) && r.path in selected && lib.Higher(r.version, selected[r.path])
    ensures Covers(lib, seen + {CoordinateOf(r)}, selected[r.path := r.version])
  {
    var selected' := selected[r.path := r.version];
    HigherIsStrictOrder(lib);
    var lt := (a: string, b: string) => lib.Higher(b, a);
    forall d <- seen + {CoordinateOf(r)} ensures d.path in selected' && !lib.Higher(d.version, selected'[d.path]) {
      if d.path == r.path && d in seen && lib.Higher(d.version, r.version) {
        HigherTransitive(lib, d.version, r.version, selected[r.path]);
        assert false;
      }
      StringOrder(r.version, r.version);
    }
  }

  method SelectAll(
    lib: Library, selected: map<string, string>, rs: seq<Requirement>, ghost seen: set<Coordinate>)
    returns (out: Result<map<string, string>, MvsError>)
    requires lib.Ok() && Covers(lib, seen, selected)
    ensures out.Ok? ==> Covers(lib, seen + Named(rs), out.value)
    ensures VersionsValid(lib, seen + Named(rs)) ==> out.Ok?
  {
    var result := selected;
    var i := 0;
    assert seen + Named(rs[..0]) == seen;
    while i < |rs|
      invariant 0 <= i <= |rs|
      invariant Covers(lib, seen + Named(rs[..i]), result)
    {
      assert rs[..i + 1] == rs[..i] + [rs[i]];
      assert Named(rs[..i + 1]) == Named(rs[..i]) + {CoordinateOf(rs[i])};
      assert seen + Named(rs[..i]) + {CoordinateOf(rs[i])} == seen + Named(rs[..i + 1]);
      assert Named(rs[..i + 1]) <= Named(rs);
      var next := SelectHigher(lib, result, rs[i], seen + Named(rs[..i]));
      if next.Err? {
        return next;
      }
      result := next.value;
      i := i + 1;
    }
    assert rs[..|rs|] == rs;
    return Ok(result);
  }

  /** Everything declared by the root and by the loaded modules of `order[..n]`. */
  ghost function DeclaredBy(
    roots: set<Coordinate>, cache: Cache, modes: Modes, order: seq<Coordinate>, n: nat): set<Coordinate>
    requires n <= |order|
  {
    if n == 0 then roots
    else
      DeclaredBy(roots, cache, modes, order, n - 1) +
      if Loaded(cache, modes, order[n - 1]) then Deps(cache, order[n - 1]) else {}
  }

  lemma {:induction false} DeclaredByMeans(
    roots: set<Coordinate>, cache: Cache, modes: Modes, order: seq<Coordinate>, n: nat)
    requires n <= |order|
    ensures forall d :: d in DeclaredBy(roots, cache, modes, order, n) <==>
              d in roots || exists i :: 0 <= i < n && Loaded(cache, modes, order[i]) && d in Deps(cache, order[i])
  {
    if n > 0 {
      DeclaredByMeans(roots, cache, modes, order, n - 1);
    }
  }

  lemma DeclaredByAll(roots: set<Coordinate>, cache: Cache, modes: Modes, order: seq<Coordinate>)
    requires Enumerates(order, cache.Keys)
    ensures forall d :: d in DeclaredBy(roots, cache, modes, order, |order|) <==> IsDeclared(roots, cache, modes, d)
  {
    DeclaredByMeans(roots, cache, modes, order, |order|);
    forall d | IsDeclared(roots, cache, modes, d) ensures d in DeclaredBy(roots, cache, modes, order, |order|) {
      if d !in roots {
        var c :| c in cache && Loaded(cache, modes, c) && d in Deps(cache, c);
        assert c in order;
      }
    }
    forall d | d in DeclaredBy(roots, cache, modes, order, |order|) ensures IsDeclared(roots, cache, modes, d) {
      if d !in roots {
        var i :| 0 <= i < |order| && Loaded(cache, modes, order[i]) && d in Deps(cache, order[i]);
        assert order[i] in cache;
      }
    }
  }

  lemma CoversIsSelection(
    lib: Library, roots: set<Coordinate>, cache: Cache, modes: Modes, seen: set<Coordinate>,
    selected: map<string, string>)
    requires forall d :: d in seen <==> IsDeclared(roots, cache, modes, d)
    requires Covers(lib, seen, selected)
    ensures IsSelection(lib, roots, cache, modes, selected)
  {
  }

  ghost predicate DeclaredValid(lib: Library, roots: set<Coordinate>, cache: Cache, modes: Modes) {
    forall d :: IsDeclared(roots, cache, modes, d) ==> lib.validVersion(d.version)
  }

  /** The highest declared version of every declared path. */
  method ComputeSelected(
    lib: Library, rootRequirements: seq<Requirement>, cache: Cache, modes: Modes)
    returns (out: Result<map<string, string>, MvsError>)
    requires lib.Ok()
    ensures out.Ok? ==> IsSelection(lib, Named(rootRequirements), cache, modes, out.value)
    ensures DeclaredValid(lib, Named(rootRequirements), cache, modes) ==> out.Ok?
  {
    ghost var roots := Named(rootRequirements);
    CoordinateOrder(lib);
    var order := Sort(CoordinateLt(lib), cache.Keys);
    DeclaredByAll(roots, cache, modes, order);
    out := SelectAll(lib, map[], rootRequirements, {});
    assert {} + Named(rootRequirements) == roots;
    if out.Ok? {
      out := SelectLoaded(lib, out.value, cache, modes, order, roots);
      if out.Ok? {
        CoversIsSelection(lib, roots, cache, modes, DeclaredBy(roots, cache, modes, order, |order|), out.value);
      }
    }
    DeclaredByGrows(roots, cache, modes, order, 0, |order|);
  }

  /** The loop over the loaded modules. */
  method SelectLoaded(
    lib: Library, start: map<string, string>, cache: Cache, modes: Modes, order: seq<Coordinate>,
    ghost roots: set<Coordinate>)
    returns (out: Result<map<string, string>, MvsError>)
    requires lib.Ok() && Covers(lib, roots, start) && forall i :: 0 <= i < |order| ==> order[i] in cache
    ensures out.Ok? ==> Covers(lib, DeclaredBy(roots, cache, modes, order, |order|), out.value)
    ensures VersionsValid(lib, DeclaredBy(roots, cache, modes, order, |order|)) ==> out.Ok?
  {
    var selected := start;
    var i := 0;
    while i < |order|
      invariant 0 <= i <= |order|
      invariant Covers(lib, DeclaredBy(roots, cache, modes, order, i), selected)
    {
      if Mode(modes, order[i]) != LoadNone {
        DeclaredByGrows(roots, cache, modes, order, i + 1, |order|);
        ghost var seen := DeclaredBy(roots, cache, modes, order, i);
        assert DeclaredBy(roots, cache, modes, order, i + 1) == seen + Named(cache[order[i]].requirements);
        out := SelectAll(lib, selected, cache[order[i]].requirements, seen);
        if out.Err? {
          return;
        }
        selected := out.value;
      }
      i := i + 1;
    }
    out := Ok(selected);
  }

  lemma {:induction false} DeclaredByGrows(
    roots: set<Coordinate>, cache: Cache, modes: Modes, order: seq<Coordinate>, m: nat, n: nat)
    requires m <= n <= |order|
    ensures DeclaredBy(roots, cache, modes, order, m) <= DeclaredBy(roots, cache, modes, order, n)
    decreases n - m
  {
    if m < n {
      DeclaredByGrows(roots, cache, modes, order, m, n - 1);
    }
  }

  // ------------------------------------------------------------------- fetch rounds

  function Chosen(selected: map<string, string>): set<Coordinate> {
    set p <- selected :: Coordinate(p, selected[p])
  }

  ghost predicate IsMissing(lib: Library, selected: map<string, string>, cache: Cache, missing: seq<Coordinate>) {
    StrictlySorted(CoordinateLt(lib), missing) && Enumerates(missing, Chosen(selected) - cache.Keys)
  }

  method MissingCoordinates(
    lib: Library, selected: map<string, string>, cache: Cache)
    returns (missing: seq<Coordinate>)
    requires lib.Ok()
    ensures IsMissing(lib, selected, cache, missing)
  {
    CoordinateOrder(lib);
    missing := Sort(CoordinateLt(lib), Chosen(selected) - cache.Keys);
  }

  predicate AllCoordinatesValid(lib: Library, cs: set<Coordinate>) {
    forall c <- cs :: lib.ValidCoordinate(c.path, c.version)
  }

  lemma NamedSplit(rs: seq<Requirement>)
    requires rs != []
    ensures Named(rs) == {CoordinateOf(rs[0])} + Named(rs[1..])
  {
    assert rs == [rs[0]] + rs[1..];
  }

  /** The first requirement of the list that is not valid. */
  function FirstInvalid(lib: Library, rs: seq<Requirement>): (c: Coordinate)
    requires !AllCoordinatesValid(lib, Named(rs))
    ensures c in Named(rs) && !lib.ValidCoordinate(c.path, c.version)
    decreases |rs|
  {
    if !lib.ValidCoordinate(rs[0].path, rs[0].version) then CoordinateOf(rs[0])
    else
      NamedSplit(rs);
      FirstInvalid(lib, rs[1..])
  }

  /** The complaint about an owner's requirements, if there is one. */
  function RequirementError(lib: Library, owner: string, rs: seq<Requirement>): Option<MvsError> {
    if AllCoordinatesValid(lib, Named(rs)) then None else Some(InvalidRequirement(owner, FirstInvalid(lib, rs)))
  }

  /** What is wrong with one returned module, if anything. */
  function EntryError(lib: Library, requested: seq<Coordinate>, fetched: Cache, c: Coordinate): Option<MvsError>
    requires c in fetched
  {
    if c !in requested then Some(UnexpectedMetadata(c))
    else if fetched[c].path != c.path then Some(WrongModule(c))
    else RequirementError(lib, c.path + "@" + c.version, fetched[c].requirements)
  }

  /** The first complaint about a round: returned modules in sorted order, then requested
      modules that did not come back. */
  function RoundError(
    lib: Library, requested: seq<Coordinate>, fetched: Cache, returned: seq<Coordinate>, n: nat, m: nat)
    : Option<MvsError>
    requires n <= |returned| && m <= |requested| && forall c <- returned :: c in fetched
    decreases |returned| - n, |requested| - m
  {
    if n < |returned| then
      var e := EntryError(lib, requested, fetched, returned[n]);
      if e.Some? then e else RoundError(lib, requested, fetched, returned, n + 1, m)
    else if m < |requested| then
      if requested[m] !in fetched then Some(NotReturned(requested[m]))
      else RoundError(lib, requested, fetched, returned, n, m + 1)
    else None
  }

  /** A round without complaint returned exactly what was asked for, all of it valid. */
  lemma {:induction false} GoodRound(
    lib: Library, requested: seq<Coordinate>, fetched: Cache, returned: seq<Coordinate>, n: nat, m: nat)
    requires n <= |returned| && m <= |requested| && forall c <- returned :: c in fetched
    requires RoundError(lib, requested, fetched, returned, n, m).None?
    ensures forall i :: n <= i < |returned| ==> EntryError(lib, requested, fetched, returned[i]).None?
    ensures forall i :: m <= i < |requested| ==> requested[i] in fetched
    decreases |returned| - n, |requested| - m
  {
    if n < |returned| {
      GoodRound(lib, requested, fetched, returned, n + 1, m);
    } else if m < |requested| {
      GoodRound(lib, requested, fetched, returned, n, m + 1);
    }
  }

  lemma RequirementErrorStep(lib: Library, owner: string, rs: seq<Requirement>)
    requires rs != []
    ensures RequirementError(lib, owner, rs) ==
            if lib.ValidCoordinate(rs[0].path, rs[0].version) then RequirementError(lib, owner, rs[1..])
            else Some(InvalidRequirement(owner, CoordinateOf(rs[0])))
  {
    NamedSplit(rs);
    assert CoordinateOf(rs[0]) in Named(rs);
  }

  /** Names the first invalid requirement of an owner, if there is one. */
  method ValidateRequirements(lib: Library, owner: string, rs: seq<Requirement>) returns (error: Option<MvsError>)
    ensures error == RequirementError(lib, owner, rs)
  {
    var i := 0;
    assert rs[0..] == rs;
    while i < |rs|
      invariant 0 <= i <= |rs|
      invariant RequirementError(lib, owner, rs) == RequirementError(lib, owner, rs[i..])
    {
      assert rs[i..][1..] == rs[i + 1..];
      RequirementErrorStep(lib, owner, rs[i..]);
      if !lib.ValidCoordinate(rs[i].path, rs[i].version) {
        return Some(InvalidRequirement(owner, CoordinateOf(rs[i])));
      }
      i := i + 1;
    }
    return None;
  }

  method CheckReturned(
    lib: Library, requested: seq<Coordinate>, fetched: Cache, returned: seq<Coordinate>)
    returns (error: Option<MvsError>)
    requires forall c <- returned :: c in fetched
    ensures if error.Some? then RoundError(lib, requested, fetched, returned, 0, 0) == error
            else RoundError(lib, requested, fetched, returned, 0, 0) ==
                 RoundError(lib, requested, fetched, returned, |returned|, 0)
  {
    var n := 0;
    while n < |returned|
      invariant 0 <= n <= |returned|
      invariant RoundError(lib, requested, fetched, returned, n, 0) ==
                RoundError(lib, requested, fetched, returned, 0, 0)
    {
      var c := returned[n];
      if c !in requested {
        return Some(UnexpectedMetadata(c));
      }
      if fetched[c].path != c.path {
        return Some(WrongModule(c));
      }
      var invalid := ValidateRequirements(lib, c.path + "@" + c.version, fetched[c].requirements);
      if invalid.Some? {
        return invalid;
      }
      n := n + 1;
    }
    return None;
  }

  function Merged(cache: Cache, requested: seq<Coordinate>, fetched: Cache): Cache {
    cache + map c | c in requested && c in fetched :: fetched[c]
  }

  lemma MergedNext(cache: Cache, requested: seq<Coordinate>, m: nat, fetched: Cache)
    requires m < |requested| && requested[m] in fetched
    ensures Merged(cache, requested[..m + 1], fetched) ==
            Merged(cache, requested[..m], fetched)[requested[m] := fetched[requested[m]]]
  {
    assert requested[..m + 1] == requested[..m] + [requested[m]];
  }

  method CopyRequested(
    lib: Library, requested: seq<Coordinate>, fetched: Cache, cache: Cache, ghost returned: seq<Coordinate>)
    returns (out: Result<Cache, MvsError>)
    requires forall c <- returned :: c in fetched
    ensures out == match RoundError(lib, requested, fetched, returned, |returned|, 0)
                   case Some(e) => Err(e)
                   case None => Ok(Merged(cache, requested, fetched))
  {
    var result := cache;
    var m := 0;
    while m < |requested|
      invariant 0 <= m <= |requested|
      invariant RoundError(lib, requested, fetched, returned, |returned|, m) ==
                RoundError(lib, requested, fetched, returned, |returned|, 0)
      invariant result == Merged(cache, requested[..m], fetched)
    {
      var c := requested[m];
      if c !in fetched {
        return Err(NotReturned(c));
      }
      MergedNext(cache, requested, m, fetched);
      result := result[c := fetched[c]];
      m := m + 1;
    }
    assert requested[..|requested|] == requested;
    return Ok(result);
  }

  ghost predicate SortedKeys(lib: Library, fetched: Cache, returned: seq<Coordinate>) {
    StrictlySorted(CoordinateLt(lib), returned) && Enumerates(returned, fetched.Keys)
  }

  /** Merges a round into the cache, or names the first thing wrong with it. */
  method AddFetchRound(
    lib: Library, requested: seq<Coordinate>, fetched: Cache, cache: Cache)
    returns (out: Result<Cache, MvsError>, ghost returned: seq<Coordinate>)
    requires lib.Ok()
    ensures SortedKeys(lib, fetched, returned)
    ensures out == match RoundError(lib, requested, fetched, returned, 0, 0)
                   case Some(e) => Err(e)
                   case None => Ok(Merged(cache, requested, fetched))
  {
    CoordinateOrder(lib);
    var sorted := Sort(CoordinateLt(lib), fetched.Keys);
    returned := sorted;
    var error := CheckReturned(lib, requested, fetched, sorted);
    if error.Some? {
      return Err(error.value), returned;
    }
    out := CopyRequested(lib, requested, fetched, cache, sorted);
  }
}
