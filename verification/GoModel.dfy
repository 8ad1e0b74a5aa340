/** Go module requirements, load modes and the sets that minimal version selection is
    about. The semantic-version library is a parameter. */
module GoModel {
  import opened Orders

  datatype Coordinate = Coordinate(path: string, version: string)

  datatype Requirement = Requirement(path: string, version: string, indirect: bool)

  datatype Metadata = Metadata(path: string, goVersion: string, requirements: seq<Requirement>)

  datatype LoadMode = LoadNone | LoadDirect | LoadFull

  type Cache = map<Coordinate, Metadata>
  type Modes = map<Coordinate, LoadMode>

  /** golang.org/x/mod as the code uses it: version order and validity, coordinate and
      path checks, and the two questions asked of a go directive. */
  datatype Library = Library(
    compare: (string, string) -> int,
    validVersion: string -> bool,
    checkModule: (string, string) -> bool,
    checkPath: string -> bool,
    validGo: string -> bool,
    pruning: string -> bool)
  {
    /** Semantic-version comparison is a total preorder; the empty version is invalid. */
    ghost predicate Ok() {
      && (forall a, b :: compare(a, b) < 0 <==> compare(b, a) > 0)
      && (forall a, b, c :: compare(a, b) <= 0 && compare(b, c) <= 0 ==> compare(a, c) <= 0)
      && !validVersion("")
    }

    predicate ValidCoordinate(path: string, version: string) {
      validVersion(version) && checkModule(path, version)
    }

    /** The order of selectHigher: by version, ties by the text. */
    predicate Higher(a: string, b: string) {
      compare(a, b) > 0 || (compare(a, b) == 0 && StringCompare(a, b) > 0)
    }

    /** compareCoordinates(a, b) < 0. */
    predicate CoordinateLess(a: Coordinate, b: Coordinate) {
      StringCompare(a.path, b.path) < 0 || (a.path == b.path && Higher(b.version, a.version))
    }
  }

  lemma HigherTransitive(lib: Library, a: string, b: string, c: string)
    requires lib.Ok() && lib.Higher(a, b) && lib.Higher(b, c)
    ensures lib.Higher(a, c)
  {
    assert lib.compare(b, a) <= 0 && lib.compare(c, b) <= 0;
    assert lib.compare(c, a) <= 0;
    StringOrder(a, b);
    StringOrder(b, c);
    StringOrder(a, c);
    if lib.compare(a, b) == 0 && lib.compare(b, c) == 0 {
      assert lib.compare(a, c) <= 0;
      StringTransitive(c, b, a);
    }
  }

  lemma HigherIsStrictOrder(lib: Library)
    requires lib.Ok()
    ensures StrictOrder((a, b) => lib.Higher(b, a))
  {
    var lt := (a: string, b: string) => lib.Higher(b, a);
    forall a, b ensures !(lt(a, b) && lt(b, a)) && (lt(a, b) || a == b || lt(b, a)) {
      StringOrder(a, b);
    }
    forall a, b, c | lt(a, b) && lt(b, c) ensures lt(a, c) {
      HigherTransitive(lib, c, b, a);
    }
  }

  function CoordinateLt(lib: Library): (Coordinate, Coordinate) -> bool {
    (a, b) => lib.CoordinateLess(a, b)
  }

  lemma CoordinateOrder(lib: Library)
    requires lib.Ok()
    ensures StrictOrder(CoordinateLt(lib))
  {
    HigherIsStrictOrder(lib);
    var vlt := (a: string, b: string) => lib.Higher(b, a);
    var lt := CoordinateLt(lib);
    forall a, b ensures !(lt(a, b) && lt(b, a)) && (lt(a, b) || a == b || lt(b, a)) {
      StringOrder(a.path, b.path);
      assert !(vlt(a.version, b.version) && vlt(b.version, a.version));
      assert vlt(a.version, b.version) || a.version == b.version || vlt(b.version, a.version);
    }
    forall a, b, c | lt(a, b) && lt(b, c) ensures lt(a, c) {
      StringOrder(a.path, b.path);
      StringOrder(b.path, c.path);
      if a.path == b.path == c.path {
        HigherTransitive(lib, c.version, b.version, a.version);
      } else {
        StringTransitive(a.path, b.path, c.path);
      }
    }
  }

  // ------------------------------------------------------------------------- views

  function CoordinateOf(r: Requirement): Coordinate {
    Coordinate(r.path, r.version)
  }

  /** The coordinates a requirement list names, whatever their order or repetition. */
  function Named(rs: seq<Requirement>): set<Coordinate> {
    set r <- rs :: CoordinateOf(r)
  }

  function Deps(cache: Cache, c: Coordinate): set<Coordinate> {
    if c in cache then Named(cache[c].requirements) else {}
  }

  function Mode(modes: Modes, c: Coordinate): LoadMode {
    if c in modes then modes[c] else LoadNone
  }

  predicate Legacy(lib: Library, cache: Cache, c: Coordinate) {
    c in cache && !lib.pruning(cache[c].goVersion)
  }

  function FullSet(modes: Modes): set<Coordinate> {
    set c <- modes | modes[c] == LoadFull
  }

  /** The modes before the first round. */
  function StartModes(lib: Library, rootGo: string, roots: set<Coordinate>): Modes {
    map c <- roots :: if lib.pruning(rootGo) then LoadDirect else LoadFull
  }

  // ------------------------------------------------------------- load-mode closure

  /** `full` is closed under the pruning rules: a cached legacy module that was not named
      directly is full, and legacy or full modules force their requirements to full. */
  ghost predicate Closed(lib: Library, start: Modes, cache: Cache, full: set<Coordinate>) {
    && FullSet(start) <= full
    && (forall c <- cache :: Legacy(lib, cache, c) && Mode(start, c) == LoadNone ==> c in full)
    && (forall c <- cache :: Legacy(lib, cache, c) || c in full ==> Deps(cache, c) <= full)
  }

  /** `end` is `start` with exactly the least closed set promoted to full. */
  ghost predicate Propagated(lib: Library, start: Modes, cache: Cache, end: Modes) {
    && Closed(lib, start, cache, FullSet(end))
    && (forall full :: Closed(lib, start, cache, full) ==> FullSet(end) <= full)
    && (forall c :: c !in FullSet(end) ==> Mode(end, c) == Mode(start, c))
  }

  /** The result does not depend on the order in which modules are visited. */
  lemma PropagationUnique(lib: Library, start: Modes, cache: Cache, a: Modes, b: Modes)
    requires Propagated(lib, start, cache, a) && Propagated(lib, start, cache, b)
    ensures forall c :: Mode(a, c) == Mode(b, c)
  {
    assert FullSet(a) == FullSet(b);
    forall c ensures Mode(a, c) == Mode(b, c) {
      assert c in FullSet(a) <==> c in FullSet(b);
    }
  }

  ghost predicate CacheGrows(a: Cache, b: Cache) {
    forall c <- a :: c in b && b[c] == a[c]
  }

  /** Propagating again after the cache grew is propagating once over the larger cache. */
  lemma PropagationResumes(lib: Library, start: Modes, cache: Cache, middle: Modes, larger: Cache, end: Modes)
    requires CacheGrows(cache, larger)
    requires Propagated(lib, start, cache, middle) && Propagated(lib, middle, larger, end)
    ensures Propagated(lib, start, larger, end)
  {
    assert FullSet(middle) <= FullSet(end);
    assert Closed(lib, start, larger, FullSet(end)) by {
      forall c <- larger | Legacy(lib, larger, c) && Mode(start, c) == LoadNone ensures c in FullSet(end) {
        if c !in FullSet(middle) {
          assert Mode(middle, c) == Mode(start, c);
        }
      }
    }
    forall full | Closed(lib, start, larger, full) ensures FullSet(end) <= full {
      assert Closed(lib, start, cache, full) by {
        forall c <- cache ensures Legacy(lib, cache, c) == Legacy(lib, larger, c) && Deps(cache, c) == Deps(larger, c) {
        }
      }
      assert FullSet(middle) <= full;
      assert Closed(lib, middle, larger, full) by {
        forall c <- larger | Legacy(lib, larger, c) && Mode(middle, c) == LoadNone ensures c in full {
          assert c !in FullSet(middle);
          assert Mode(start, c) == LoadNone;
        }
      }
    }
    forall c | c !in FullSet(end) ensures Mode(end, c) == Mode(start, c) {
      assert c !in FullSet(middle);
    }
  }

  // -------------------------------------------------------------------- selection

  predicate Loaded(cache: Cache, modes: Modes, c: Coordinate) {
    c in cache && Mode(modes, c) != LoadNone
  }

  /** Required by the root or by a loaded cached module. */
  ghost predicate IsDeclared(roots: set<Coordinate>, cache: Cache, modes: Modes, d: Coordinate) {
    d in roots || exists c <- cache :: Loaded(cache, modes, c) && d in Deps(cache, c)
  }

  /** For every declared path the highest declared version, verbatim. */
  ghost predicate IsSelection(
    lib: Library, roots: set<Coordinate>, cache: Cache, modes: Modes, selected: map<string, string>) {
    && (forall d :: IsDeclared(roots, cache, modes, d) ==>
          d.path in selected && !lib.Higher(d.version, selected[d.path]))
    && (forall p <- selected :: IsDeclared(roots, cache, modes, Coordinate(p, selected[p])))
  }

  lemma SelectionUnique(
    lib: Library, roots: set<Coordinate>, cache: Cache, modes: Modes, a: map<string, string>, b: map<string, string>)
    requires lib.Ok() && IsSelection(lib, roots, cache, modes, a) && IsSelection(lib, roots, cache, modes, b)
    ensures a == b
  {
    forall p <- a ensures p in b && a[p] == b[p] {
      assert IsDeclared(roots, cache, modes, Coordinate(p, a[p]));
      assert IsDeclared(roots, cache, modes, Coordinate(p, b[p]));
      StringOrder(a[p], b[p]);
    }
    forall p <- b ensures p in a {
      assert IsDeclared(roots, cache, modes, Coordinate(p, b[p]));
    }
  }

  /** More declarations never lower or drop a selected version. */
  lemma SelectionGrows(
    lib: Library, roots: set<Coordinate>, cache: Cache, modes: Modes, a: map<string, string>, cache': Cache,
    modes': Modes, b: map<string, string>)
    requires forall d :: IsDeclared(roots, cache, modes, d) ==> IsDeclared(roots, cache', modes', d)
    requires IsSelection(lib, roots, cache, modes, a) && IsSelection(lib, roots, cache', modes', b)
    ensures forall p <- a :: p in b && !lib.Higher(a[p], b[p])
  {
    forall p <- a ensures p in b && !lib.Higher(a[p], b[p]) {
      assert IsDeclared(roots, cache', modes', Coordinate(p, a[p]));
    }
  }
}
