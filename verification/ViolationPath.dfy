/** Shortest dependency paths from the project to a package that violates the policy. */
module ViolationPath {
  import opened Common

  datatype Edge = Edge(fromName: string, fromVersion: string, toName: string, toVersion: string)

  datatype Package = Package(name: string, version: string, violates: bool)

  type Graph = map<string, seq<string>>

  function Key(name: string, version: string): string {
    name + "@" + version
  }

  function Parents(g: Graph, n: string): seq<string> {
    if n in g then g[n] else []
  }

  predicate IsRoot(p: string, root: string) {
    p == root || p == root + "@"
  }

  function Last<T>(s: seq<T>): T
    requires s != []
  {
    s[|s| - 1]
  }

  // -------------------------------------------------------------------- specification

  /** A walk against the edges, from the package towards the root. */
  ghost predicate Walk(g: Graph, node: string, path: seq<string>) {
    && path != [] && path[0] == node
    && forall i :: 0 <= i < |path| - 1 ==> path[i + 1] in Parents(g, path[i])
  }

  ghost predicate HasRootParent(g: Graph, root: string, n: string) {
    exists p <- Parents(g, n) :: IsRoot(p, root)
  }

  /** A walk whose end depends directly on the root. */
  ghost predicate Reaches(g: Graph, node: string, root: string, path: seq<string>) {
    Walk(g, node, path) && HasRootParent(g, root, Last(path))
  }

  /** The root, then the walk read from its end to its start. */
  predicate Backwards(root: string, walk: seq<string>, out: seq<string>) {
    |out| == |walk| + 1 && out[0] == root && forall i :: 1 <= i <= |walk| ==> out[i] == walk[|walk| - i]
  }

  /** The root, then a shortest walk read backwards; the node alone if there is none. */
  ghost predicate IsShortest(g: Graph, node: string, root: string, out: seq<string>) {
    || (exists best :: Reaches(g, node, root, best) && Backwards(root, best, out) &&
          forall other :: Reaches(g, node, root, other) ==> |best| <= |other|)
    || (out == [node] && forall other :: !Reaches(g, node, root, other))
  }

  // ---------------------------------------------------------------------------- search

  datatype Entry = Entry(node: string, path: seq<string>)

  /** Every node that can ever be visited. */
  ghost function Universe(g: Graph, node: string): set<string> {
    {node} + set n <- g, p <- g[n] :: p
  }

  ghost predicate EntryOk(g: Graph, node: string, e: Entry) {
    Walk(g, node, e.path) && Last(e.path) == e.node
  }

  /** A node whose parents have all been looked at. */
  ghost predicate Explored(g: Graph, root: string, level: map<string, nat>, v: string) {
    v in level && forall p <- Parents(g, v) :: !IsRoot(p, root) && p in level && level[p] <= level[v] + 1
  }

  ghost predicate Waiting(g: Graph, node: string, level: map<string, nat>, done: set<string>, e: Entry) {
    EntryOk(g, node, e) && e.node in level && level[e.node] == |e.path| && e.node !in done
  }

  /** The queue holds visited, unexplored nodes once each, by level, spanning two levels. */
  ghost predicate QueueOk(g: Graph, node: string, queue: seq<Entry>, level: map<string, nat>, done: set<string>) {
    && (forall i :: 0 <= i < |queue| ==> Waiting(g, node, level, done, queue[i]))
    && (forall i, j :: 0 <= i < j < |queue| ==> |queue[i].path| <= |queue[j].path| && queue[i].node != queue[j].node)
    && (forall v <- level :: queue != [] ==> level[v] <= |queue[0].path| + 1)
  }

  /** The level of a visited node is the length of the walk that found it; explored nodes
      have no root parent; the rest wait in the queue. */
  ghost predicate Searching(
    g: Graph, node: string, root: string, queue: seq<Entry>, level: map<string, nat>, done: set<string>)
  {
    && node in level && level[node] == 1 && level.Keys <= Universe(g, node) && done <= level.Keys
    && QueueOk(g, node, queue, level, done)
    && (forall v <- done :: Explored(g, root, level, v))
    && (forall v <- level :: v in done || InQueue(queue, v))
  }

  ghost predicate InQueue(queue: seq<Entry>, v: string) {
    exists i :: 0 <= i < |queue| && queue[i].node == v
  }

  /** Along any walk that stays among explored nodes, levels grow by at most one. */
  lemma {:induction false} ExploredPrefix(
    g: Graph, node: string, root: string, level: map<string, nat>, done: set<string>, q: seq<string>, n: nat)
    requires Walk(g, node, q) && n < |q| && node in level && level[node] == 1
    requires forall v <- done :: Explored(g, root, level, v)
    requires forall i :: 0 <= i < n ==> q[i] in done
    ensures q[n] in level && level[q[n]] <= n + 1
    decreases n
  {
    if n > 0 {
      ExploredPrefix(g, node, root, level, done, q, n - 1);
      assert q[n - 1] in done && Explored(g, root, level, q[n - 1]);
      assert q[(n - 1) + 1] in Parents(g, q[n - 1]);
    }
  }

  lemma {:induction false} FirstOutside(q: seq<string>, done: set<string>) returns (n: nat)
    requires q != [] && Last(q) !in done
    ensures n < |q| && q[n] !in done && forall i :: 0 <= i < n ==> q[i] in done
    decreases |q|
  {
    if q[0] !in done {
      n := 0;
    } else {
      assert Last(q[1..]) == Last(q);
      var m := FirstOutside(q[1..], done);
      n := m + 1;
      forall i | 0 <= i < n ensures q[i] in done {
        assert i > 0 ==> q[i] == q[1..][i - 1];
      }
    }
  }

  /** Any walk that reaches the root is at least as long as the head of the queue. */
  lemma HeadIsShortest(
    g: Graph, node: string, root: string, queue: seq<Entry>, level: map<string, nat>, done: set<string>,
    q: seq<string>)
    requires Searching(g, node, root, queue, level, done) && Reaches(g, node, root, q)
    ensures queue != [] && |queue[0].path| <= |q|
  {
    assert forall v <- done :: !HasRootParent(g, root, v);
    var n := FirstOutside(q, done);
    ExploredPrefix(g, node, root, level, done, q, n);
    assert InQueue(queue, q[n]);
    var i :| 0 <= i < |queue| && queue[i].node == q[n];
    assert Waiting(g, node, level, done, queue[i]);
    assert i > 0 ==> |queue[0].path| <= |queue[i].path|;
  }

  /** The state inside the loop over the parents of `cur`, when `news` have been queued. */
  ghost predicate Expanding(
    g: Graph, node: string, root: string, cur: Entry, ps: seq<string>, before: map<string, nat>,
    level: map<string, nat>, news: seq<Entry>)
  {
    && before.Keys <= level.Keys && (forall v <- before :: level[v] == before[v])
    && (forall v <- level :: v in before || (level[v] == |cur.path| + 1 && InQueue(news, v)))
    && (forall p <- ps :: !IsRoot(p, root) && p in level)
    && level.Keys <= Universe(g, node)
    && (forall i :: 0 <= i < |news| ==> NewEntryOk(g, node, cur, before, level, news[i]))
    && (forall i, j :: 0 <= i < j < |news| ==> news[i].node != news[j].node)
  }

  ghost predicate NewEntryOk(
    g: Graph, node: string, cur: Entry, before: map<string, nat>, level: map<string, nat>, e: Entry)
  {
    EntryOk(g, node, e) && |e.path| == |cur.path| + 1 && e.node in level && e.node !in before
  }

  lemma ExtendWalk(g: Graph, node: string, cur: Entry, p: string)
    requires EntryOk(g, node, cur) && p in Parents(g, cur.node)
    ensures EntryOk(g, node, Entry(p, cur.path + [p])) && p in Universe(g, node)
  {
    var path := cur.path + [p];
    forall i | 0 <= i < |path| - 1 ensures path[i + 1] in Parents(g, path[i]) {
      if i == |cur.path| - 1 {
        assert path[i] == Last(cur.path) && path[i + 1] == p;
      } else {
        assert path[i] == cur.path[i] && path[i + 1] == cur.path[i + 1];
      }
    }
  }

  lemma ExpandStep(
    g: Graph, node: string, root: string, cur: Entry, ps: seq<string>, p: string, before: map<string, nat>,
    level: map<string, nat>, news: seq<Entry>)
    requires Expanding(g, node, root, cur, ps, before, level, news) && EntryOk(g, node, cur)
    requires p in Parents(g, cur.node) && !IsRoot(p, root) && p !in level
    ensures Expanding(g, node, root, cur, ps + [p], before, level[p := |cur.path| + 1],
                      news + [Entry(p, cur.path + [p])])
  {
    ExtendWalk(g, node, cur, p);
    var e := Entry(p, cur.path + [p]);
    var after, more := level[p := |cur.path| + 1], news + [e];
    NewsVisited(cur, p, before, level, news);
    forall i | 0 <= i < |more| ensures NewEntryOk(g, node, cur, before, after, more[i]) {
      assert i < |news| ==> NewEntryOk(g, node, cur, before, level, news[i]);
    }
    forall i | 0 <= i < |news| ensures news[i].node != p {
      assert NewEntryOk(g, node, cur, before, level, news[i]);
    }
  }

  lemma NewsVisited(cur: Entry, p: string, before: map<string, nat>, level: map<string, nat>, news: seq<Entry>)
    requires forall v <- level :: v in before || (level[v] == |cur.path| + 1 && InQueue(news, v))
    ensures var after, more := level[p := |cur.path| + 1], news + [Entry(p, cur.path + [p])];
            forall v <- after :: v in before || (after[v] == |cur.path| + 1 && InQueue(more, v))
  {
    var after, more := level[p := |cur.path| + 1], news + [Entry(p, cur.path + [p])];
    assert more[|news|].node == p;
    forall v <- after ensures v in before || (after[v] == |cur.path| + 1 && InQueue(more, v)) {
      if v != p && v !in before {
        var i :| 0 <= i < |news| && news[i].node == v;
        assert more[i].node == v;
      }
    }
  }

  /** The loop over the parents of one node. */
  method Expand(
    g: Graph, ghost node: string, root: string, cur: Entry, visited: set<string>, ghost before: map<string, nat>)
    returns (found: bool, seen: set<string>, news: seq<Entry>, ghost level: map<string, nat>)
    requires EntryOk(g, node, cur) && visited == before.Keys && visited <= Universe(g, node)
    ensures found ==> HasRootParent(g, root, cur.node)
    ensures !found ==> seen == level.Keys && Expanding(g, node, root, cur, Parents(g, cur.node), before, level, news)
  {
    var ps := Parents(g, cur.node);
    found, seen, news, level := false, visited, [], before;
    for i := 0 to |ps|
      invariant seen == level.Keys && Expanding(g, node, root, cur, ps[..i], before, level, news)
    {
      var p := ps[i];
      assert ps[..i + 1] == ps[..i] + [p];
      if p == root || p == root + "@" {
        assert IsRoot(p, root) && p in ps;
        found := true;
        return;
      }
      if p !in seen {
        ExpandStep(g, node, root, cur, ps[..i], p, before, level, news);
        seen := seen + {p};
        news := news + [Entry(p, cur.path + [p])];
        level := level[p := |cur.path| + 1];
      }
    }
    assert ps[..|ps|] == ps;
  }

  lemma RestWaits(
    g: Graph, node: string, root: string, queue: seq<Entry>, before: map<string, nat>, done: set<string>,
    level: map<string, nat>, news: seq<Entry>)
    requires QueueOk(g, node, queue, before, done) && done <= before.Keys && queue != []
    requires Expanding(g, node, root, queue[0], Parents(g, queue[0].node), before, level, news)
    ensures QueueOk(g, node, queue[1..] + news, level, done + {queue[0].node})
  {
    var cur, rest := queue[0], queue[1..] + news;
    assert Waiting(g, node, before, done, cur);
    forall i | 0 <= i < |rest|
      ensures Waiting(g, node, level, done + {cur.node}, rest[i]) && |cur.path| <= |rest[i].path| <= |cur.path| + 1 {
      if i < |queue| - 1 {
        assert rest[i] == queue[i + 1] && Waiting(g, node, before, done, queue[i + 1]);
      } else {
        assert rest[i] == news[i - (|queue| - 1)] && NewEntryOk(g, node, cur, before, level, news[i - (|queue| - 1)]);
      }
    }
    RestOrdered(g, node, root, queue, before, done, level, news);
  }

  lemma RestOrdered(
    g: Graph, node: string, root: string, queue: seq<Entry>, before: map<string, nat>, done: set<string>,
    level: map<string, nat>, news: seq<Entry>)
    requires QueueOk(g, node, queue, before, done) && queue != []
    requires Expanding(g, node, root, queue[0], Parents(g, queue[0].node), before, level, news)
    ensures var rest := queue[1..] + news;
            forall i, j :: 0 <= i < j < |rest| ==> |rest[i].path| <= |rest[j].path| && rest[i].node != rest[j].node
  {
    var rest, n := queue[1..] + news, |queue| - 1;
    forall i, j | 0 <= i < j < |rest| ensures |rest[i].path| <= |rest[j].path| && rest[i].node != rest[j].node {
      var x, y := rest[i], rest[j];
      assert x == if i < n then queue[i + 1] else news[i - n];
      assert y == if j < n then queue[j + 1] else news[j - n];
      assert i < n ==> Waiting(g, node, before, done, x);
      assert i >= n ==> NewEntryOk(g, node, queue[0], before, level, x);
      assert j >= n ==> NewEntryOk(g, node, queue[0], before, level, y);
    }
  }

  lemma Advance(
    g: Graph, node: string, root: string, queue: seq<Entry>, before: map<string, nat>, done: set<string>,
    level: map<string, nat>, news: seq<Entry>)
    requires Searching(g, node, root, queue, before, done) && queue != []
    requires Expanding(g, node, root, queue[0], Parents(g, queue[0].node), before, level, news)
    ensures Searching(g, node, root, queue[1..] + news, level, done + {queue[0].node})
  {
    var cur, rest := queue[0], queue[1..] + news;
    assert Waiting(g, node, before, done, cur);
    RestWaits(g, node, root, queue, before, done, level, news);
    forall v <- done + {cur.node} ensures Explored(g, root, level, v) {
      if v in done {
        assert Explored(g, root, before, v);
      } else {
        assert Waiting(g, node, before, done, cur);
      }
    }
    forall v <- level ensures v in done + {cur.node} || InQueue(rest, v) {
      StillQueued(queue, news, v);
    }
  }

  /** What waited behind the head, or was just found, waits in the new queue. */
  lemma StillQueued(queue: seq<Entry>, news: seq<Entry>, v: string)
    requires queue != []
    ensures InQueue(news, v) || (InQueue(queue, v) && v != queue[0].node) ==> InQueue(queue[1..] + news, v)
  {
    var rest := queue[1..] + news;
    if InQueue(news, v) {
      var i :| 0 <= i < |news| && news[i].node == v;
      assert rest[|queue| - 1 + i] == news[i];
    } else if InQueue(queue, v) && v != queue[0].node {
      var i :| 0 <= i < |queue| && queue[i].node == v;
      assert rest[i - 1] == queue[i];
    }
  }

  /** The full path, root first. */
  method RootFirst(root: string, path: seq<string>) returns (full: seq<string>)
    ensures Backwards(root, path, full)
  {
    full := [root];
    var i := |path|;
    while i > 0
      invariant 0 <= i <= |path| && |full| == |path| - i + 1 && full[0] == root
      invariant forall k :: 1 <= k < |full| ==> full[k] == path[|path| - k]
    {
      i := i - 1;
      full := full + [path[i]];
    }
  }

  lemma UniverseBound(g: Graph, node: string, done: set<string>, v: string)
    requires done <= Universe(g, node) && v in Universe(g, node) && v !in done
    ensures |done| < |Universe(g, node)|
  {
    SubsetSize(done + {v}, Universe(g, node));
  }

  lemma FoundShortest(
    g: Graph, node: string, root: string, queue: seq<Entry>, level: map<string, nat>, done: set<string>,
    out: seq<string>)
    requires Searching(g, node, root, queue, level, done) && queue != [] && HasRootParent(g, root, queue[0].node)
    requires Backwards(root, queue[0].path, out)
    ensures IsShortest(g, node, root, out)
  {
    var best := queue[0].path;
    assert Waiting(g, node, level, done, queue[0]);
    assert Reaches(g, node, root, best);
    forall other | Reaches(g, node, root, other) ensures |best| <= |other| {
      HeadIsShortest(g, node, root, queue, level, done, other);
    }
  }

  lemma NoneReaches(g: Graph, node: string, root: string, level: map<string, nat>, done: set<string>)
    requires Searching(g, node, root, [], level, done)
    ensures IsShortest(g, node, root, [node])
  {
    forall other ensures !Reaches(g, node, root, other) {
      if Reaches(g, node, root, other) {
        HeadIsShortest(g, node, root, [], level, done, other);
      }
    }
  }

  /** Breadth-first search against the edges. It ends on every graph. */
  method FindPath(node: string, root: string, g: Graph) returns (out: seq<string>)
    ensures IsShortest(g, node, root, out)
  {
    var visited := {node};
    var queue := [Entry(node, [node])];
    ghost var level: map<string, nat>, done: set<string> := map[node := 1], {};
    assert InQueue(queue, node) by { assert queue[0].node == node; }
    while |queue| > 0
      invariant visited == level.Keys && Searching(g, node, root, queue, level, done)
      decreases |Universe(g, node)| - |done|
    {
      var cur := queue[0];
      assert Waiting(g, node, level, done, cur);
      UniverseBound(g, node, done, cur.node);
      var found, seen, news;
      ghost var after: map<string, nat>;
      found, seen, news, after := Expand(g, node, root, cur, visited, level);
      if found {
        out := RootFirst(root, cur.path);
        FoundShortest(g, node, root, queue, level, done, out);
        return;
      }
      Advance(g, node, root, queue, level, done, after, news);
      queue := queue[1..] + news;
      visited, level, done := seen, after, done + {cur.node};
    }
    assert queue == [];
    NoneReaches(g, node, root, level, done);
    return [node];
  }

  // ---------------------------------------------------------------------------- report

  /** The sources of the edges into a node, in the order of the edges. */
  function Sources(edges: seq<Edge>, child: string): seq<string> {
    if edges == [] then []
    else
      var e := edges[|edges| - 1];
      Sources(edges[..|edges| - 1], child) +
      if Key(e.toName, e.toVersion) == child then [Key(e.fromName, e.fromVersion)] else []
  }

  ghost predicate AdjacentAt(g: Graph, edges: seq<Edge>, n: string) {
    Parents(g, n) == Sources(edges, n)
  }

  ghost predicate Adjacency(g: Graph, edges: seq<Edge>) {
    forall n {:trigger AdjacentAt(g, edges, n)} :: AdjacentAt(g, edges, n)
  }

  lemma AdjacencyNext(g: Graph, edges: seq<Edge>, e: Edge)
    requires Adjacency(g, edges)
    ensures var child := Key(e.toName, e.toVersion);
            Adjacency(g[child := Parents(g, child) + [Key(e.fromName, e.fromVersion)]], edges + [e])
  {
    var child := Key(e.toName, e.toVersion);
    var g' := g[child := Parents(g, child) + [Key(e.fromName, e.fromVersion)]];
    assert (edges + [e])[..|edges|] == edges;
    forall n ensures AdjacentAt(g', edges + [e], n) {
      assert AdjacentAt(g, edges, n);
    }
  }

  /** The reverse adjacency of GenerateReport. */
  method BuildParents(edges: seq<Edge>) returns (g: Graph)
    ensures Adjacency(g, edges)
  {
    g := map[];
    for i := 0 to |edges|
      invariant Adjacency(g, edges[..i])
    {
      var e := edges[i];
      assert edges[..i + 1] == edges[..i] + [e];
      AdjacencyNext(g, edges[..i], e);
      var child, parent := Key(e.toName, e.toVersion), Key(e.fromName, e.fromVersion);
      g := g[child := Parents(g, child) + [parent]];
    }
    assert edges[..|edges|] == edges;
  }

  ghost predicate IsEdge(edges: seq<Edge>, parent: string, child: string) {
    exists e <- edges :: Key(e.fromName, e.fromVersion) == parent && Key(e.toName, e.toVersion) == child
  }

  lemma {:induction false} SourcesAreEdges(edges: seq<Edge>, parent: string, child: string)
    ensures parent in Sources(edges, child) <==> IsEdge(edges, parent, child)
    decreases |edges|
  {
    if edges != [] {
      var rest, e := edges[..|edges| - 1], edges[|edges| - 1];
      SourcesAreEdges(rest, parent, child);
      assert edges == rest + [e];
    }
  }

  lemma ParentIsEdge(g: Graph, edges: seq<Edge>, parent: string, child: string)
    requires Adjacency(g, edges)
    ensures parent in Parents(g, child) <==> IsEdge(edges, parent, child)
  {
    assert AdjacentAt(g, edges, child);
    SourcesAreEdges(edges, parent, child);
  }

  /** A real dependency path, child last: the first node is the root, the second depends on
      it directly, and every further node on the one before. */
  ghost predicate RealPath(edges: seq<Edge>, root: string, node: string, path: seq<string>) {
    && |path| >= 2 && path[0] == root && Last(path) == node
    && (IsEdge(edges, root, path[1]) || IsEdge(edges, root + "@", path[1]))
    && forall i :: 1 <= i < |path| - 1 ==> IsEdge(edges, path[i], path[i + 1])
  }

  /** The shortest real path if there is one, otherwise the package alone. */
  ghost predicate Explains(edges: seq<Edge>, root: string, node: string, path: seq<string>) {
    || (RealPath(edges, root, node, path) && forall other :: RealPath(edges, root, node, other) ==> |path| <= |other|)
    || (path == [node] && forall other :: !RealPath(edges, root, node, other))
  }

  lemma WalkIsReal(g: Graph, edges: seq<Edge>, root: string, node: string, walk: seq<string>, path: seq<string>)
    requires Adjacency(g, edges) && Reaches(g, node, root, walk) && Backwards(root, walk, path)
    ensures RealPath(edges, root, node, path)
  {
    var n := |walk|;
    var p :| p in Parents(g, Last(walk)) && IsRoot(p, root);
    ParentIsEdge(g, edges, p, Last(walk));
    assert path[1] == walk[n - 1] && path[n] == walk[0];
    forall i | 1 <= i < n ensures IsEdge(edges, path[i], path[i + 1]) {
      var j := n - 1 - i;
      assert path[i] == walk[j + 1] && path[i + 1] == walk[j];
      assert walk[j + 1] in Parents(g, walk[j]);
      ParentIsEdge(g, edges, walk[j + 1], walk[j]);
    }
  }

  /** The walk that a real path is, from its last node back to the first below the root. */
  function WalkOf(path: seq<string>): seq<string>
    requires path != []
  {
    seq(|path| - 1, k requires 0 <= k < |path| - 1 => path[|path| - 1 - k])
  }

  lemma RealIsWalk(g: Graph, edges: seq<Edge>, root: string, node: string, path: seq<string>)
    requires Adjacency(g, edges) && RealPath(edges, root, node, path)
    ensures Reaches(g, node, root, WalkOf(path))
  {
    var walk, n := WalkOf(path), |path| - 1;
    forall i | 0 <= i < n - 1 ensures walk[i + 1] in Parents(g, walk[i]) {
      var k := n - 1 - i;
      assert walk[i + 1] == path[k] && walk[i] == path[k + 1];
      ParentIsEdge(g, edges, path[k], path[k + 1]);
    }
    ParentIsEdge(g, edges, root, path[1]);
    ParentIsEdge(g, edges, root + "@", path[1]);
    assert Last(walk) == path[1];
    assert IsRoot(root, root) && IsRoot(root + "@", root);
  }

  /** What the search finds in the reverse adjacency explains the package in the edges. */
  lemma ShortestExplains(g: Graph, edges: seq<Edge>, root: string, node: string, path: seq<string>)
    requires Adjacency(g, edges) && IsShortest(g, node, root, path)
    ensures Explains(edges, root, node, path)
  {
    forall other | RealPath(edges, root, node, other)
      ensures Reaches(g, node, root, WalkOf(other)) && |WalkOf(other)| == |other| - 1
    {
      RealIsWalk(g, edges, root, node, other);
    }
    if best :| Reaches(g, node, root, best) && Backwards(root, best, path) &&
               forall other :: Reaches(g, node, root, other) ==> |best| <= |other| {
      WalkIsReal(g, edges, root, node, best, path);
    }
  }

  function Violating(packages: seq<Package>): seq<Package> {
    if packages == [] then []
    else
      var p := packages[|packages| - 1];
      Violating(packages[..|packages| - 1]) + if p.violates then [p] else []
  }

  ghost predicate Explained(edges: seq<Edge>, root: string, v: (Package, seq<string>)) {
    Explains(edges, root, Key(v.0.name, v.0.version), v.1)
  }

  /** The violations listed for these packages, in order, each with its path. */
  ghost predicate Listed(
    packages: seq<Package>, edges: seq<Edge>, root: string, violations: seq<(Package, seq<string>)>) {
    && |violations| == |Violating(packages)|
    && (forall i :: 0 <= i < |violations| ==> violations[i].0 == Violating(packages)[i])
    && (forall i :: 0 <= i < |violations| ==> Explained(edges, root, violations[i]))
  }

  ghost predicate Indexed(packages: seq<Package>, edges: seq<Edge>, root: string, paths: map<string, seq<string>>) {
    && paths.Keys == (set p <- packages | p.violates :: Key(p.name, p.version))
    && forall k <- paths :: Explains(edges, root, k, paths[k])
  }

  lemma ListedNext(
    packages: seq<Package>, pkg: Package, edges: seq<Edge>, root: string, violations: seq<(Package, seq<string>)>,
    path: seq<string>)
    requires Listed(packages, edges, root, violations) && (pkg.violates ==> Explained(edges, root, (pkg, path)))
    ensures Listed(packages + [pkg], edges, root, if pkg.violates then violations + [(pkg, path)] else violations)
  {
    assert (packages + [pkg])[..|packages|] == packages;
  }

  lemma IndexedNext(
    packages: seq<Package>, pkg: Package, edges: seq<Edge>, root: string, paths: map<string, seq<string>>,
    path: seq<string>)
    requires Indexed(packages, edges, root, paths) && (pkg.violates ==> Explained(edges, root, (pkg, path)))
    ensures Indexed(packages + [pkg], edges, root,
                    if pkg.violates then paths[Key(pkg.name, pkg.version) := path] else paths)
  {
  }

  /** The violating packages of the report in order, each with its path, and the paths by key. */
  method ViolationPaths(
    packages: seq<Package>, edges: seq<Edge>, root: string)
    returns (violations: seq<(Package, seq<string>)>, paths: map<string, seq<string>>)
    ensures Listed(packages, edges, root, violations) && Indexed(packages, edges, root, paths)
  {
    var g := BuildParents(edges);
    violations, paths := [], map[];
    for i := 0 to |packages|
      invariant Listed(packages[..i], edges, root, violations) && Indexed(packages[..i], edges, root, paths)
    {
      var pkg := packages[i];
      var k := Key(pkg.name, pkg.version);
      assert packages[..i + 1] == packages[..i] + [pkg];
      var path := [];
      if pkg.violates {
        path := FindPath(k, root, g);
        ShortestExplains(g, edges, root, k, path);
      }
      ListedNext(packages[..i], pkg, edges, root, violations, path);
      IndexedNext(packages[..i], pkg, edges, root, paths, path);
      if pkg.violates {
        violations := violations + [(pkg, path)];
        paths := paths[k := path];
      }
    }
    assert packages[..|packages|] == packages;
  }
}
