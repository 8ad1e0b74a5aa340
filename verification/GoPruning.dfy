/** Graph pruning as chains of requirements: which modules are loaded in full, which only
    with their own requirements, and which not at all. */
module GoPruning {
  import opened GoModel

  /** The metadata of `a` require `b`. */
  predicate Asks(cache: Cache, a: Coordinate, b: Coordinate) {
    a in cache && exists r <- cache[a].requirements :: r.path == b.path && r.version == b.version
  }

  ghost predicate AskInTurn(cache: Cache, p: seq<Coordinate>) {
    forall i :: 0 <= i < |p| - 1 ==> Asks(cache, p[i], p[i + 1])
  }

  /** A cached module that does not prune. */
  predicate Unpruned(lib: Library, cache: Cache, c: Coordinate) {
    c in cache && !lib.pruning(cache[c].goVersion)
  }

  /** A requirement of a root module that does not prune. */
  predicate UnprunedRoot(lib: Library, rootGo: string, roots: set<Coordinate>, c: Coordinate) {
    !lib.pruning(rootGo) && c in roots
  }

  /** The chain forces its end to be loaded in full: it starts at what does not prune; a
      module that does not prune forces itself unless the root requires it. */
  ghost predicate Forces(
    lib: Library, rootGo: string, roots: set<Coordinate>, cache: Cache, p: seq<Coordinate>, c: Coordinate) {
    && p != [] && p[|p| - 1] == c && AskInTurn(cache, p)
    && (UnprunedRoot(lib, rootGo, roots, p[0]) ||
        (Unpruned(lib, cache, p[0]) && (|p| == 1 ==> c !in roots)))
  }

  ghost predicate ForcedByChain(lib: Library, rootGo: string, roots: set<Coordinate>, cache: Cache, c: Coordinate) {
    exists p :: Forces(lib, rootGo, roots, cache, p, c)
  }

  ghost predicate LoadedByChains(
    lib: Library, rootGo: string, roots: set<Coordinate>, cache: Cache, modes: Modes) {
    forall c :: Mode(modes, c) ==
                if ForcedByChain(lib, rootGo, roots, cache, c) then LoadFull
                else if c in roots then LoadDirect
                else LoadNone
  }

  lemma AsksIsDep(cache: Cache, a: Coordinate, b: Coordinate)
    ensures Asks(cache, a, b) <==> b in Deps(cache, a)
  {
    if a in cache && b in Deps(cache, a) {
      var r :| r in cache[a].requirements && CoordinateOf(r) == b;
      assert r.path == b.path;
    }
  }

  lemma ForcedNext(
    lib: Library, rootGo: string, roots: set<Coordinate>, cache: Cache, a: Coordinate, b: Coordinate)
    requires ForcedByChain(lib, rootGo, roots, cache, a) || Unpruned(lib, cache, a)
    requires Asks(cache, a, b)
    ensures ForcedByChain(lib, rootGo, roots, cache, b)
  {
    var p := [a];
    if !Unpruned(lib, cache, a) {
      p :| Forces(lib, rootGo, roots, cache, p, a);
    }
    var q := p + [b];
    assert AskInTurn(cache, q) by {
      forall i | 0 <= i < |q| - 1 ensures Asks(cache, q[i], q[i + 1]) {
        if i < |p| - 1 {
          assert Asks(cache, p[i], p[i + 1]);
        }
      }
    }
    assert Forces(lib, rootGo, roots, cache, q, b);
  }

  /** The forced modules among the full ones are closed, so all full ones are forced. */
  lemma FullIsForced(lib: Library, rootGo: string, roots: set<Coordinate>, cache: Cache, end: Modes)
    requires Propagated(lib, StartModes(lib, rootGo, roots), cache, end)
    ensures forall c <- FullSet(end) :: ForcedByChain(lib, rootGo, roots, cache, c)
  {
    var start := StartModes(lib, rootGo, roots);
    var all := FullSet(end);
    var full := set c <- all | ForcedByChain(lib, rootGo, roots, cache, c);
    forall c <- FullSet(start) ensures c in full {
      assert Forces(lib, rootGo, roots, cache, [c], c);
    }
    forall c <- cache | Legacy(lib, cache, c) && Mode(start, c) == LoadNone ensures c in full {
      assert Forces(lib, rootGo, roots, cache, [c], c);
    }
    forall c <- cache | Legacy(lib, cache, c) || c in full ensures Deps(cache, c) <= full {
      forall d <- Deps(cache, c) ensures d in full {
        AsksIsDep(cache, c, d);
        ForcedNext(lib, rootGo, roots, cache, c, d);
      }
    }
    assert Closed(lib, start, cache, full);
  }

  lemma {:induction false} ForcedIsFull(
    lib: Library, rootGo: string, roots: set<Coordinate>, cache: Cache, end: Modes, p: seq<Coordinate>, c: Coordinate)
    requires Propagated(lib, StartModes(lib, rootGo, roots), cache, end)
    requires Forces(lib, rootGo, roots, cache, p, c)
    ensures c in FullSet(end)
    decreases |p|
  {
    var start := StartModes(lib, rootGo, roots);
    if |p| == 1 {
      if UnprunedRoot(lib, rootGo, roots, c) {
        assert c in FullSet(start);
      }
    } else {
      var q, b := p[..|p| - 1], p[|p| - 2];
      assert Asks(cache, p[|p| - 2], p[|p| - 1]);
      AsksIsDep(cache, b, c);
      assert AskInTurn(cache, q) by {
        forall i | 0 <= i < |q| - 1 ensures Asks(cache, q[i], q[i + 1]) {
          assert Asks(cache, p[i], p[i + 1]);
        }
      }
      if !Unpruned(lib, cache, b) {
        assert q[0] == p[0] && (|q| == 1 ==> b == p[0]);
        ForcedIsFull(lib, rootGo, roots, cache, end, q, b);
      }
    }
  }

  /** Propagation from the root's requirements loads exactly what the chains say. */
  lemma ChainsDecide(lib: Library, rootGo: string, roots: set<Coordinate>, cache: Cache, end: Modes)
    requires Propagated(lib, StartModes(lib, rootGo, roots), cache, end)
    ensures LoadedByChains(lib, rootGo, roots, cache, end)
  {
    FullIsForced(lib, rootGo, roots, cache, end);
    forall c ensures c in FullSet(end) <==> ForcedByChain(lib, rootGo, roots, cache, c) {
      if ForcedByChain(lib, rootGo, roots, cache, c) {
        var p :| Forces(lib, rootGo, roots, cache, p, c);
        ForcedIsFull(lib, rootGo, roots, cache, end, p, c);
      }
    }
    if !lib.pruning(rootGo) {
      assert roots <= FullSet(StartModes(lib, rootGo, roots)) <= FullSet(end);
    }
  }
}
