/** The dependency paths that an audit report gives for its violations. */
module ViolationPaths {
  // Edges are inverted into a map from a package to its dependents, and a
  // breadth-first walk goes from a violating package back to the root project.

  datatype Edge = Edge(fromName: string, fromVersion: string, toName: string, toVersion: string)

  type Graph = map<string, seq<string>>

  function Key(name: string, version: string): string {
    name + "@" + version
  }

  function ParentsOf(parents: Graph, node: string): seq<string> {
    if node in parents then parents[node] else []
  }

  predicate HasEdge(edges: seq<Edge>, parent: string, child: string) {
    exists e :: e in edges && Key(e.toName, e.toVersion) == child && Key(e.fromName, e.fromVersion) == parent
  }

  /** Each child has exactly the parents that some edge gives it. */
  ghost predicate Inverts(edges: seq<Edge>, parents: Graph) {
    forall child, parent :: parent in ParentsOf(parents, child) <==> HasEdge(edges, parent, child)
  }

  method InvertEdges(edges: seq<Edge>) returns (parents: Graph)
    ensures Inverts(edges, parents)
  {
    parents := map[];
    for i := 0 to |edges|
      invariant Inverts(edges[..i], parents)
    {
      var child := Key(edges[i].toName, edges[i].toVersion);
      var parent := Key(edges[i].fromName, edges[i].fromVersion);
      ghost var before := parents;
      parents := parents[child := ParentsOf(parents, child) + [parent]];
      assert edges[..i + 1] == edges[..i] + [edges[i]];
      forall c, p ensures p in ParentsOf(parents, c) <==> HasEdge(edges[..i + 1], p, c) {
        assert p in ParentsOf(parents, c) <==> p in ParentsOf(before, c) || (c == child && p == parent);
        assert HasEdge(edges[..i + 1], p, c) <==> HasEdge(edges[..i], p, c) || (c == child && p == parent) by {
          assert edges[i] in edges[..i + 1];
        }
      }
    }
    assert edges[..|edges|] == edges;
  }

  /** Edges from the root project carry an empty version. */
  predicate IsRootKey(root: string, key: string) { key == root || key == root + "@" }

  /** A walk from a node to its parents, their parents and so on. */
  ghost predicate Walk(parents: Graph, node: string, w: seq<string>) {
    |w| >= 1 && w[0] == node && forall i :: 0 <= i < |w| - 1 ==> w[i + 1] in ParentsOf(parents, w[i])
  }

  ghost predicate RootWalk(parents: Graph, node: string, root: string, w: seq<string>) {
    Walk(parents, node, w) && |w| >= 2 && IsRootKey(root, w[|w| - 1])
  }

  /** From root to node along real edges. */
  ghost predicate RootPath(parents: Graph, node: string, root: string, path: seq<string>) {
    && |path| >= 2 && path[0] == root && path[|path| - 1] == node
    && (exists key :: key in ParentsOf(parents, path[1]) && IsRootKey(root, key))
    && forall i :: 1 <= i < |path| - 1 ==> path[i] in ParentsOf(parents, path[i + 1])
  }

  ghost predicate ShortestPath(parents: Graph, node: string, root: string, path: seq<string>) {
    if exists w :: RootWalk(parents, node, root, w)
    then RootPath(parents, node, root, path) && forall w :: RootWalk(parents, node, root, w) ==> |path| <= |w|
    else path == [node]
  }

  datatype Visit = Visit(node: string, path: seq<string>)

  // ----- Breadth-first search -----

  /** Every finished node was expanded: no root among its parents, and each parent found at most one step later. */
  ghost predicate Expanded(parents: Graph, root: string, done: set<string>, dist: map<string, nat>) {
    forall u, p :: u in done && p in ParentsOf(parents, u) ==>
      !IsRootKey(root, p) && u in dist && p in dist && dist[p] <= dist[u] + 1
  }

  lemma {:induction false} WalkDistance(parents: Graph, node: string, root: string, done: set<string>,
                                        dist: map<string, nat>, w: seq<string>, i: nat)
    requires Expanded(parents, root, done, dist) && node in dist && dist[node] <= 1
    requires Walk(parents, node, w) && i < |w| && forall k :: 0 <= k < i ==> w[k] in done
    ensures w[i] in dist && dist[w[i]] <= i + 1
  {
    if i > 0 {
      WalkDistance(parents, node, root, done, dist, w, i - 1);
      assert w[i - 1] in done && w[i] in ParentsOf(parents, w[i - 1]);
    }
  }

  /** A walk to the root leaves the finished nodes before its last step. */
  lemma {:induction false} LeavesDone(parents: Graph, node: string, root: string, done: set<string>,
                                      dist: map<string, nat>, w: seq<string>)
      returns (i: nat)
    requires Expanded(parents, root, done, dist) && RootWalk(parents, node, root, w)
    ensures i < |w| - 1 && w[i] !in done && forall k :: 0 <= k < i ==> w[k] in done
  {
    i := 0;
    while i < |w| - 1 && w[i] in done
      invariant i <= |w| - 1 && forall k :: 0 <= k < i ==> w[k] in done
      invariant i > 0 ==> !IsRootKey(root, w[i])
    {
      assert w[i + 1] in ParentsOf(parents, w[i]);
      i := i + 1;
    }
  }

  /** If every unfinished node that was found is at least d nodes out, no walk reaches the root sooner. */
  lemma NoShorterWalk(parents: Graph, node: string, root: string, done: set<string>, dist: map<string, nat>, d: nat,
                      w: seq<string>)
    requires Expanded(parents, root, done, dist) && node in dist && dist[node] <= 1
    requires forall v :: v in dist && v !in done ==> dist[v] >= d
    requires RootWalk(parents, node, root, w)
    ensures |w| >= d + 1
  {
    var i := LeavesDone(parents, node, root, done, dist, w);
    WalkDistance(parents, node, root, done, dist, w, i);
  }

  /** If every node that was found is finished, the root cannot be reached. */
  lemma NoWalk(parents: Graph, node: string, root: string, done: set<string>, dist: map<string, nat>, w: seq<string>)
    requires Expanded(parents, root, done, dist) && node in dist && dist[node] <= 1 && dist.Keys == done
    ensures !RootWalk(parents, node, root, w)
  {
    if RootWalk(parents, node, root, w) {
      var i := LeavesDone(parents, node, root, done, dist, w);
      WalkDistance(parents, node, root, done, dist, w, i);
      assert false;
    }
  }

  ghost function Universe(parents: Graph, node: string): set<string> {
    {node} + set k, i | k in parents && 0 <= i < |parents[k]| :: parents[k][i]
  }

  ghost predicate VisitOk(parents: Graph, node: string, done: set<string>, dist: map<string, nat>, v: Visit) {
    && Walk(parents, node, v.path) && v.path[|v.path| - 1] == v.node
    && v.node in dist && dist[v.node] == |v.path| && v.node !in done
  }

  predicate Before(a: Visit, b: Visit) { a.node != b.node && |a.path| <= |b.path| }

  predicate InQueue(queue: seq<Visit>, node: string) {
    exists i :: 0 <= i < |queue| && queue[i].node == node
  }

  /** The queue holds the found but unfinished nodes, nearest first, each with a walk of its distance. */
  ghost predicate QueueOk(parents: Graph, node: string, done: set<string>, dist: map<string, nat>, queue: seq<Visit>) {
    && (forall i {:trigger VisitOk(parents, node, done, dist, queue[i])} :: 0 <= i < |queue| ==>
          VisitOk(parents, node, done, dist, queue[i]))
    && (forall i, j {:trigger Before(queue[i], queue[j])} :: 0 <= i < j < |queue| ==> Before(queue[i], queue[j]))
    && (forall v {:trigger InQueue(queue, v)} :: v in dist && v !in done ==> InQueue(queue, v))
  }

  lemma PopKeeps(parents: Graph, node: string, done: set<string>, dist: map<string, nat>, queue: seq<Visit>)
    requires QueueOk(parents, node, done, dist, queue) && queue != []
    ensures QueueOk(parents, node, done + {queue[0].node}, dist, queue[1..])
  {
    var rest, done' := queue[1..], done + {queue[0].node};
    forall i | 0 <= i < |rest| ensures VisitOk(parents, node, done', dist, rest[i]) {
      assert VisitOk(parents, node, done, dist, queue[i + 1]) && Before(queue[0], queue[i + 1]);
    }
    forall i, j | 0 <= i < j < |rest| ensures Before(rest[i], rest[j]) {
      assert Before(queue[i + 1], queue[j + 1]);
    }
    forall v | v in dist && v !in done' ensures InQueue(rest, v) {
      assert InQueue(queue, v);
      var i :| 0 <= i < |queue| && queue[i].node == v;
      assert rest[i - 1].node == v;
    }
  }

  lemma PushKeeps(parents: Graph, node: string, done: set<string>, dist: map<string, nat>, queue: seq<Visit>,
                  cur: Visit, p: string)
    requires QueueOk(parents, node, done, dist, queue) && done <= dist.Keys && p !in dist
    requires Walk(parents, node, cur.path) && cur.path[|cur.path| - 1] == cur.node && p in ParentsOf(parents, cur.node)
    requires forall v :: v in dist ==> dist[v] <= |cur.path| + 1
    ensures QueueOk(parents, node, done, dist[p := |cur.path| + 1], queue + [Visit(p, cur.path + [p])])
  {
    var added := Visit(p, cur.path + [p]);
    var dist', queue' := dist[p := |cur.path| + 1], queue + [added];
    forall i | 0 <= i < |queue'| ensures VisitOk(parents, node, done, dist', queue'[i]) {
      if i < |queue| {
        assert VisitOk(parents, node, done, dist, queue[i]);
      }
    }
    forall i, j | 0 <= i < j < |queue'| ensures Before(queue'[i], queue'[j]) {
      assert VisitOk(parents, node, done, dist, queue[i]);
      if j < |queue| {
        assert Before(queue[i], queue[j]);
      }
    }
    forall v | v in dist' && v !in done ensures InQueue(queue', v) {
      if v == p {
        assert queue'[|queue|].node == v;
      } else {
        assert InQueue(queue, v);
        var i :| 0 <= i < |queue| && queue[i].node == v;
        assert queue'[i].node == v;
      }
    }
  }

  /** While a node at distance d is expanded, found nodes are within d + 1 and unfinished ones at least d out. */
  ghost predicate Level(done: set<string>, dist: map<string, nat>, d: nat) {
    && (forall v :: v in dist ==> dist[v] <= d + 1)
    && (forall v :: v in dist && v !in done ==> dist[v] >= d)
  }

  lemma PopLevel(parents: Graph, node: string, done: set<string>, dist: map<string, nat>, queue: seq<Visit>)
    requires QueueOk(parents, node, done, dist, queue) && queue != []
    requires forall v :: v in dist ==> dist[v] <= |queue[0].path| + 1
    ensures Level(done, dist, |queue[0].path|)
  {
    forall v | v in dist && v !in done ensures dist[v] >= |queue[0].path| {
      assert InQueue(queue, v);
      var i :| 0 <= i < |queue| && queue[i].node == v;
      assert VisitOk(parents, node, done, dist, queue[i]);
      assert i > 0 ==> Before(queue[0], queue[i]);
    }
  }

  lemma ExpandedAfter(parents: Graph, root: string, done: set<string>, dist: map<string, nat>, cur: string)
    requires Expanded(parents, root, done, dist) && cur in dist && Level(done, dist, dist[cur])
    requires forall p :: p in ParentsOf(parents, cur) ==> !IsRootKey(root, p) && p in dist
    ensures Expanded(parents, root, done + {cur}, dist)
  {
  }

  /** Between two rounds of the search. */
  ghost predicate Searching(parents: Graph, node: string, root: string, done: set<string>, dist: map<string, nat>,
                            queue: seq<Visit>) {
    && node in dist && dist[node] == 1 && done <= dist.Keys <= Universe(parents, node)
    && Expanded(parents, root, done, dist) && QueueOk(parents, node, done, dist, queue)
    && (queue != [] ==> forall v :: v in dist ==> dist[v] <= |queue[0].path| + 1)
  }

  /** While the first i parents of the current node have been looked at. */
  ghost predicate Expanding(parents: Graph, node: string, root: string, done: set<string>, dist: map<string, nat>,
                            queue: seq<Visit>, cur: Visit, i: nat) {
    && node in dist && dist[node] == 1 && done <= dist.Keys <= Universe(parents, node)
    && Expanded(parents, root, done, dist) && QueueOk(parents, node, done + {cur.node}, dist, queue)
    && VisitOk(parents, node, done, dist, cur) && Level(done, dist, |cur.path|)
    && i <= |ParentsOf(parents, cur.node)|
    && forall k :: 0 <= k < i ==>
       !IsRootKey(root, ParentsOf(parents, cur.node)[k]) && ParentsOf(parents, cur.node)[k] in dist
  }

  lemma Start(parents: Graph, node: string, root: string)
    ensures Searching(parents, node, root, {}, map[node := 1], [Visit(node, [node])])
  {
    var queue := [Visit(node, [node])];
    assert queue[0].node == node;
  }

  lemma Pop(parents: Graph, node: string, root: string, done: set<string>, dist: map<string, nat>, queue: seq<Visit>)
    requires Searching(parents, node, root, done, dist, queue) && queue != []
    ensures Expanding(parents, node, root, done, dist, queue[1..], queue[0], 0)
  {
    PopKeeps(parents, node, done, dist, queue);
    PopLevel(parents, node, done, dist, queue);
    assert VisitOk(parents, node, done, dist, queue[0]);
  }

  lemma Push(parents: Graph, node: string, root: string, done: set<string>, dist: map<string, nat>, queue: seq<Visit>,
             cur: Visit, i: nat)
    requires Expanding(parents, node, root, done, dist, queue, cur, i) && i < |ParentsOf(parents, cur.node)|
    requires var p := ParentsOf(parents, cur.node)[i]; p !in dist && !IsRootKey(root, p)
    ensures var p := ParentsOf(parents, cur.node)[i];
            Expanding(parents, node, root, done, dist[p := |cur.path| + 1],
                      queue + [Visit(p, cur.path + [p])], cur, i + 1)
  {
    var p := ParentsOf(parents, cur.node)[i];
    PushKeeps(parents, node, done + {cur.node}, dist, queue, cur, p);
    assert p in Universe(parents, node);
  }

  lemma Skip(parents: Graph, node: string, root: string, done: set<string>, dist: map<string, nat>, queue: seq<Visit>,
             cur: Visit, i: nat)
    requires Expanding(parents, node, root, done, dist, queue, cur, i) && i < |ParentsOf(parents, cur.node)|
    requires var p := ParentsOf(parents, cur.node)[i]; p in dist && !IsRootKey(root, p)
    ensures Expanding(parents, node, root, done, dist, queue, cur, i + 1)
  {
  }

  lemma Finish(parents: Graph, node: string, root: string, done: set<string>, dist: map<string, nat>,
               queue: seq<Visit>, cur: Visit)
    requires Expanding(parents, node, root, done, dist, queue, cur, |ParentsOf(parents, cur.node)|)
    ensures Searching(parents, node, root, done + {cur.node}, dist, queue)
    ensures |Universe(parents, node) - (done + {cur.node})| < |Universe(parents, node) - done|
  {
    ExpandedAfter(parents, root, done, dist, cur.node);
    if queue != [] {
      assert VisitOk(parents, node, done + {cur.node}, dist, queue[0]);
    }
    var before, after := Universe(parents, node) - done, Universe(parents, node) - (done + {cur.node});
    assert before == after + {cur.node};
  }

  /** Reaching the root from the current node, at the first opportunity. */
  lemma Arrive(parents: Graph, node: string, root: string, done: set<string>, dist: map<string, nat>,
               queue: seq<Visit>, cur: Visit, i: nat)
    requires Expanding(parents, node, root, done, dist, queue, cur, i) && i < |ParentsOf(parents, cur.node)|
    requires IsRootKey(root, ParentsOf(parents, cur.node)[i])
    ensures RootPath(parents, node, root, [root] + Reversed(cur.path))
    ensures exists w :: RootWalk(parents, node, root, w)
    ensures forall w :: RootWalk(parents, node, root, w) ==> |cur.path| + 1 <= |w|
  {
    var p := ParentsOf(parents, cur.node)[i];
    AssembledPath(parents, node, root, cur.path, p);
    forall w | RootWalk(parents, node, root, w) ensures |cur.path| + 1 <= |w| {
      NoShorterWalk(parents, node, root, done, dist, |cur.path|, w);
    }
    assert RootWalk(parents, node, root, cur.path + [p]);
  }

  lemma Exhausted(parents: Graph, node: string, root: string, done: set<string>, dist: map<string, nat>)
    requires Searching(parents, node, root, done, dist, [])
    ensures forall w :: !RootWalk(parents, node, root, w)
  {
    forall v | v in dist ensures v in done {
      assert v !in done ==> InQueue([], v);
    }
    forall w ensures !RootWalk(parents, node, root, w) {
      NoWalk(parents, node, root, done, dist, w);
    }
  }

  function Reversed(s: seq<string>): (r: seq<string>)
    ensures |r| == |s| && forall i :: 0 <= i < |s| ==> r[i] == s[|s| - 1 - i]
  {
    if s == [] then [] else Reversed(s[1..]) + [s[0]]
  }

  /** The root followed by the walk in reverse. */
  method Assemble(root: string, path: seq<string>) returns (full: seq<string>)
    ensures full == [root] + Reversed(path)
  {
    full := [root];
    var i := |path| - 1;
    while i >= 0
      invariant -1 <= i < |path|
      invariant full == [root] + Reversed(path)[..|path| - 1 - i]
    {
      full := full + [path[i]];
      i := i - 1;
    }
    assert Reversed(path)[..|path|] == Reversed(path);
  }

  lemma AssembledPath(parents: Graph, node: string, root: string, path: seq<string>, key: string)
    requires Walk(parents, node, path) && key in ParentsOf(parents, path[|path| - 1]) && IsRootKey(root, key)
    ensures RootPath(parents, node, root, [root] + Reversed(path))
  {
    var full := [root] + Reversed(path);
    assert full[1] == path[|path| - 1];
    forall i | 1 <= i < |full| - 1 ensures full[i] in ParentsOf(parents, full[i + 1]) {
      assert full[i] == path[|path| - i] && full[i + 1] == path[|path| - i - 1];
    }
  }

  /** The round that takes one node from the queue: its parents end the search or join the queue. */
  method Expand(parents: Graph, node: string, root: string, cur: Visit, before: seq<Visit>, seen: set<string>,
                ghost done: set<string>, ghost found: map<string, nat>)
      returns (arrived: bool, queue: seq<Visit>, visited: set<string>, ghost dist: map<string, nat>)
    requires Expanding(parents, node, root, done, found, before, cur, 0) && seen == found.Keys
    ensures visited == dist.Keys
    ensures arrived ==>
            exists i :: 0 <= i < |ParentsOf(parents, cur.node)| && IsRootKey(root, ParentsOf(parents, cur.node)[i]) &&
                                    Expanding(parents, node, root, done, dist, queue, cur, i)
    ensures !arrived ==> Expanding(parents, node, root, done, dist, queue, cur, |ParentsOf(parents, cur.node)|)
  {
    arrived, queue, visited, dist := false, before, seen, found;
    var above := ParentsOf(parents, cur.node);
    for i := 0 to |above|
      invariant visited == dist.Keys && !arrived
      invariant Expanding(parents, node, root, done, dist, queue, cur, i)
    {
      var p := above[i];
      if p == root || p == root + "@" {
        arrived := true;
        return;
      }
      if p !in visited {
        Push(parents, node, root, done, dist, queue, cur, i);
        visited := visited + {p};
        queue := queue + [Visit(p, cur.path + [p])];
        dist := dist[p := |cur.path| + 1];
      } else {
        Skip(parents, node, root, done, dist, queue, cur, i);
      }
    }
  }

  /**
   A shortest path from the root to the node when the root can be reached
   backwards, and only the node otherwise. It ends on every graph, cycles included.
   */
  method FindPath(node: string, root: string, parents: Graph) returns (path: seq<string>)
    ensures ShortestPath(parents, node, root, path)
  {
    var visited := {node};
    var queue := [Visit(node, [node])];
    ghost var done: set<string>, dist: map<string, nat> := {}, map[node := 1];
    Start(parents, node, root);
    while |queue| > 0
      invariant visited == dist.Keys
      invariant Searching(parents, node, root, done, dist, queue)
      decreases |Universe(parents, node) - done|
    {
      Pop(parents, node, root, done, dist, queue);
      var cur := queue[0];
      var arrived;
      arrived, queue, visited, dist := Expand(parents, node, root, cur, queue[1..], visited, done, dist);
      if arrived {
        ghost var i :| 0 <= i < |ParentsOf(parents, cur.node)| && IsRootKey(root, ParentsOf(parents, cur.node)[i]) &&
                       Expanding(parents, node, root, done, dist, queue, cur, i);
        Arrive(parents, node, root, done, dist, queue, cur, i);
        path := Assemble(root, cur.path);
        return;
      }
      Finish(parents, node, root, done, dist, queue, cur);
      done := done + {cur.node};
    }
    Exhausted(parents, node, root, done, dist);
    path := [node];
  }

  // ----- The report -----

  datatype Package = Package(name: string, version: string, violates: bool)

  datatype Violation = Violation(package: Package, path: seq<string>)

  function Violating(packages: seq<Package>): seq<Package> {
    if packages == [] then []
    else
      var last := packages[|packages| - 1];
      Violating(packages[..|packages| - 1]) + if last.violates then [last] else []
  }

  function KeyOf(v: Violation): string { Key(v.package.name, v.package.version) }

  ghost predicate Explained(parents: Graph, root: string, v: Violation) {
    ShortestPath(parents, KeyOf(v), root, v.path)
  }

  /** A map filled from pairs in order: exactly their keys, each with the value of its last pair. */
  ghost predicate LastWins<K(!new), V>(keys: seq<K>, values: seq<V>, m: map<K, V>)
    requires |keys| == |values|
  {
    && (forall k :: k in m.Keys <==> k in keys)
    && (forall i :: 0 <= i < |keys| && keys[i] !in keys[i + 1..] ==> keys[i] in m && m[keys[i]] == values[i])
  }

  lemma LastWinsOn<K(!new), V>(keys: seq<K>, values: seq<V>, m: map<K, V>, k: K, v: V)
    requires |keys| == |values| && LastWins(keys, values, m)
    ensures LastWins(keys + [k], values + [v], m[k := v])
  {
    var keys', m' := keys + [k], m[k := v];
    forall i | 0 <= i < |keys'| && keys'[i] !in keys'[i + 1..]
      ensures keys'[i] in m' && m'[keys'[i]] == (values + [v])[i]
    {
      if i < |keys| {
        assert keys'[i + 1..] == keys[i + 1..] + [k];
        assert keys[i] in m && m[keys[i]] == values[i];
      }
    }
  }

  /** Each violating package's path under its key. */
  ghost predicate PathsOf(violations: seq<Violation>, paths: map<string, seq<string>>) {
    LastWins(seq(|violations|, i requires 0 <= i < |violations| => KeyOf(violations[i])),
             seq(|violations|, i requires 0 <= i < |violations| => violations[i].path), paths)
  }

  lemma PathsOn(violations: seq<Violation>, paths: map<string, seq<string>>, v: Violation)
    requires PathsOf(violations, paths)
    ensures PathsOf(violations + [v], paths[KeyOf(v) := v.path])
  {
    var all := violations + [v];
    var keys := seq(|violations|, i requires 0 <= i < |violations| => KeyOf(violations[i]));
    var values := seq(|violations|, i requires 0 <= i < |violations| => violations[i].path);
    LastWinsOn(keys, values, paths, KeyOf(v), v.path);
    assert seq(|all|, i requires 0 <= i < |all| => KeyOf(all[i])) == keys + [KeyOf(v)];
    assert seq(|all|, i requires 0 <= i < |all| => all[i].path) == values + [v.path];
  }

  /** The counts, the violations in order and the dependency paths; the summary text is left out. */
  datatype Report = Report(total: nat, clean: nat, violations: seq<Violation>, paths: map<string, seq<string>>)

  /** The violating packages in order, each with a shortest path through the recorded edges. */
  method GenerateReport(packages: seq<Package>, edges: seq<Edge>, root: string)
      returns (r: Report, ghost parents: Graph)
    ensures Inverts(edges, parents)
    ensures r.total == |packages| && |r.violations| == |Violating(packages)| && r.clean == |packages| - |r.violations|
    ensures forall i :: 0 <= i < |r.violations| ==>
              r.violations[i].package == Violating(packages)[i] && Explained(parents, root, r.violations[i])
    ensures PathsOf(r.violations, r.paths)
  {
    var inverted := InvertEdges(edges);
    parents := inverted;
    var violations: seq<Violation>, paths: map<string, seq<string>> := [], map[];
    for i := 0 to |packages|
      invariant |violations| == |Violating(packages[..i])| <= i
      invariant forall k :: 0 <= k < |violations| ==>
                  violations[k].package == Violating(packages[..i])[k] && Explained(parents, root, violations[k])
      invariant PathsOf(violations, paths)
    {
      assert packages[..i + 1][..i] == packages[..i];
      if packages[i].violates {
        var path := FindPath(Key(packages[i].name, packages[i].version), root, inverted);
        var v := Violation(packages[i], path);
        PathsOn(violations, paths, v);
        violations, paths := violations + [v], paths[KeyOf(v) := path];
      }
    }
    assert packages[..|packages|] == packages;
    r := Report(|packages|, |packages| - |violations|, violations, paths);
  }
}
