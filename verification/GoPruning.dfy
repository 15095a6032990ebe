/** What graph pruning lets in. */
module GoPruning {
  // The load modes of GoLoadModes are a means. Here the result of a selection is stated
  // from the go directives and the requirements alone: which cached modules are loaded,
  // what is therefore required, and what the build list and its edges are.

  import opened Wrappers
  import opened Ordering
  import opened Sorting
  import opened GoModules
  import opened GoLoadModes
  import opened GoRounds

  // ----- Which modules are loaded -----

  /** The root's go directive is 1.17 or later. */
  predicate RootPrunes(p: Problem) {
    !Blank(p.goVersion) && p.sv.compare("v" + p.goVersion, "v1.17") >= 0
  }

  /** Requirements that follow one another through cached modules, from one without pruning. */
  ghost predicate Chain(cache: Cache, chain: seq<Coordinate>) {
    && chain != [] && chain[0] in cache && !cache[chain[0]].prunes
    && forall i {:trigger ChainLink(cache, chain, i)} :: 0 <= i < |chain| - 1 ==> ChainLink(cache, chain, i)
  }

  predicate ChainLink(cache: Cache, chain: seq<Coordinate>, i: nat)
    requires i < |chain| - 1
  {
    chain[i] in cache && chain[i + 1] in cache[chain[i]].needs
  }

  /** The module has no pruning, or is required, directly or not, by one that has none. */
  ghost predicate BehindUnpruned(cache: Cache, m: Coordinate) {
    exists chain :: Chain(cache, chain) && chain[|chain| - 1] == m
  }

  /**
   Without pruning at the root everything cached is loaded; with it, the root's own requirements
   and what is behind an unpruned module.
   */
  ghost predicate Loads(p: Problem, cache: Cache, m: Coordinate) {
    m in cache && (RootPrunes(p) ==> m in p.roots || BehindUnpruned(cache, m))
  }

  /** Required by the root or by a loaded module. */
  ghost predicate Requires(p: Problem, cache: Cache, d: Coordinate) {
    d in p.roots || exists m :: Loads(p, cache, m) && d in cache[m].needs
  }

  /** A chain of requirements from the root through loaded modules. */
  ghost predicate RouteTo(p: Problem, cache: Cache, route: seq<Coordinate>, m: Coordinate) {
    && route != [] && route[0] in p.roots && route[|route| - 1] == m
    && forall i :: 0 <= i < |route| - 1 ==> Loads(p, cache, route[i]) && route[i + 1] in cache[route[i]].needs
  }

  lemma ChainOn(cache: Cache, chain: seq<Coordinate>, d: Coordinate)
    requires Chain(cache, chain) && chain[|chain| - 1] in cache && d in cache[chain[|chain| - 1]].needs
    ensures Chain(cache, chain + [d]) && BehindUnpruned(cache, d)
  {
    var longer := chain + [d];
    forall i {:trigger ChainLink(cache, longer, i)} | 0 <= i < |longer| - 1 ensures ChainLink(cache, longer, i) {
      if i < |chain| - 1 {
        assert ChainLink(cache, chain, i);
      }
    }
    assert longer[|longer| - 1] == d;
  }

  lemma UnprunedIsBehind(cache: Cache, m: Coordinate)
    requires m in cache && !cache[m].prunes
    ensures BehindUnpruned(cache, m)
  {
    assert Chain(cache, [m]) && [m][|[m]| - 1] == m;
  }

  lemma NeedIsBehind(cache: Cache, m: Coordinate, d: Coordinate)
    requires BehindUnpruned(cache, m) && m in cache && d in cache[m].needs
    ensures BehindUnpruned(cache, d)
  {
    var chain :| Chain(cache, chain) && chain[|chain| - 1] == m;
    ChainOn(cache, chain, d);
  }

  // ----- With pruning at the root -----

  /** Everything on a chain after its first module is fully loaded, and the first is loaded. */
  lemma {:induction false} ChainLoads(from: Modes, modes: Modes, cache: Cache, chain: seq<Coordinate>, i: nat)
    requires Closed(from, modes, cache) && Chain(cache, chain) && i < |chain|
    ensures Rank(modes, chain[i]) > 0 && (i > 0 ==> Rank(modes, chain[i]) == 2)
  {
    if i == 0 {
      assert RuleOk(from, modes, cache, chain[0]) && Rank(from, chain[0]) <= Rank(modes, chain[0]);
    } else {
      ChainLoads(from, modes, cache, chain, i - 1);
      assert ChainLink(cache, chain, i - 1) && RuleOk(from, modes, cache, chain[i - 1]);
    }
  }

  /** The modes that pruning allows: what is behind unpruned modules, and the root's requirements. */
  ghost function Allowed(roots: set<Coordinate>, cache: Cache): Modes {
    map c | c in roots + Touched(cache) && (c in roots || BehindUnpruned(cache, c)) ::
      if BehindUnpruned(cache, c) then Full else Direct
  }

  lemma AllowedClosed(from: Modes, cache: Cache)
    requires forall c :: c in from ==> from[c].Direct?
    ensures Closed(from, Allowed(from.Keys, cache), cache)
  {
    var allowed := Allowed(from.Keys, cache);
    forall c {:trigger RuleOk(from, allowed, cache, c)} | c in cache ensures RuleOk(from, allowed, cache, c) {
      if !cache[c].prunes {
        UnprunedIsBehind(cache, c);
      }
      if Expands(allowed, cache, c) {
        forall d | d in cache[c].needs ensures Rank(allowed, d) == 2 {
          NeedIsBehind(cache, c, d);
          assert d in Touched(cache);
        }
      }
    }
  }

  lemma LoadedWithPruning(from: Modes, cache: Cache, m: Coordinate)
    requires (forall c :: c in from ==> from[c].Direct?) && m in cache
    ensures Rank(LeastModes(from, cache), m) > 0 <==> m in from || BehindUnpruned(cache, m)
  {
    var modes := LeastModes(from, cache);
    LeastIsLeast(from, cache);
    AllowedClosed(from, cache);
    assert Above(modes, Allowed(from.Keys, cache));
    assert Rank(modes, m) <= Rank(Allowed(from.Keys, cache), m) && Rank(from, m) <= Rank(modes, m);
    if BehindUnpruned(cache, m) {
      var chain :| Chain(cache, chain) && chain[|chain| - 1] == m;
      ChainLoads(from, modes, cache, chain, |chain| - 1);
    }
  }

  // ----- Without -----

  lemma {:induction false} RouteLoads(from: Modes, modes: Modes, roots: set<Coordinate>, cache: Cache,
                                      route: seq<Coordinate>, i: nat)
    requires Closed(from, modes, cache) && (forall c :: c in roots ==> Rank(from, c) == 2)
    requires Route(roots, cache, modes, route) && i < |route|
    ensures Rank(modes, route[i]) == 2
  {
    if i == 0 {
      assert Rank(from, route[0]) <= Rank(modes, route[0]);
    } else {
      RouteLoads(from, modes, roots, cache, route, i - 1);
      assert Link(cache, modes, route, i - 1) && RuleOk(from, modes, cache, route[i - 1]);
    }
  }

  lemma LoadedWithoutPruning(g: Setup, cache: Cache, m: Coordinate)
    requires (forall c :: c in g.roots ==> Rank(g.modes, c) == 2) && Reached(g, cache, m)
    ensures Rank(ModesAt(g, cache), m) > 0
  {
    var modes := ModesAt(g, cache);
    LeastIsLeast(g.modes, cache);
    var route :| Route(g.roots, cache, modes, route) && route[|route| - 1] == m;
    RouteLoads(g.modes, modes, g.roots, cache, route, |route| - 1);
  }

  /** The modes of a round say exactly what the go directives say. */
  lemma LoadedExactly(p: Problem, cache: Cache, m: Coordinate)
    requires AllReached(SetupOf(p), cache) && m in cache
    ensures Rank(ModesAt(SetupOf(p), cache), m) > 0 <==> Loads(p, cache, m)
  {
    if RootPrunes(p) {
      LoadedWithPruning(RootModes(p), cache, m);
    } else {
      LoadedWithoutPruning(SetupOf(p), cache, m);
    }
  }

  /** What a round takes as required is what pruning lets in. */
  lemma RequiredExactly(p: Problem, cache: Cache, d: Coordinate)
    requires AllReached(SetupOf(p), cache)
    ensures d in RequiredAt(SetupOf(p), cache) <==> Requires(p, cache, d)
  {
    var g := SetupOf(p);
    if d in RequiredAt(g, cache) && d !in p.roots {
      var c :| c in cache && Rank(ModesAt(g, cache), c) > 0 && d in cache[c].needs;
      LoadedExactly(p, cache, c);
    }
    if Requires(p, cache, d) && d !in p.roots {
      var m :| Loads(p, cache, m) && d in cache[m].needs;
      LoadedExactly(p, cache, m);
    }
  }

  /** Without pruning at the root, everything that the root or any cached module requires. */
  lemma RequiredWithoutPruning(p: Problem, cache: Cache, d: Coordinate)
    requires AllReached(SetupOf(p), cache) && !RootPrunes(p)
    ensures d in RequiredAt(SetupOf(p), cache) <==> d in p.roots || exists m :: m in cache && d in cache[m].needs
  {
    RequiredExactly(p, cache, d);
    assert forall m :: m in cache <==> Loads(p, cache, m);
  }

  // ----- What is fetched and accepted -----

  predicate GoodCoordinate(sv: Semver, c: Coordinate) { sv.isVersion(c.version) && sv.fits(c.path, c.version) }

  /** The input is accepted exactly when path, directive and every requirement are valid. */
  lemma InputAccepted(p: Problem)
    ensures InputError(p).None? <==>
            && p.sv.isPath(p.rootPath) && !Blank(p.goVersion) && p.sv.isDirective("v" + p.goVersion)
            && forall c :: c in p.roots ==> GoodCoordinate(p.sv, c)
  {
    if forall c :: c in p.roots ==> GoodCoordinate(p.sv, c) {
      assert forall i :: 0 <= i < |p.roots| ==> p.roots[i] in p.roots;
    }
  }

  /** Metadata of the module itself, with valid requirements. */
  predicate GoodMetadata(sv: Semver, c: Coordinate, metadata: Metadata) {
    metadata.path == c.path && forall d :: d in metadata.requirements ==> GoodCoordinate(sv, d)
  }

  /** A response is accepted exactly when it answers the request, all of it and nothing else, with good metadata. */
  lemma ResponseAccepted(sv: Semver, requested: set<Coordinate>, fetched: Fetched)
    ensures FetchError(sv, requested, fetched).None? <==>
            fetched.Keys == requested && forall c :: c in fetched ==> GoodMetadata(sv, c, fetched[c])
  {
    if FetchError(sv, requested, fetched).None? {
      FetchedIsRequested(sv, requested, fetched);
    }
    if fetched.Keys == requested && forall c :: c in fetched ==> GoodMetadata(sv, c, fetched[c]) {
      forall c | c in fetched ensures Offence(sv, requested, fetched, c).None? {
        assert GoodMetadata(sv, c, fetched[c]);
        assert forall i :: 0 <= i < |fetched[c].requirements| ==> fetched[c].requirements[i] in fetched[c].requirements;
      }
      assert Offenders(sv, requested, fetched) == {};
    }
  }

  /** What the cache says of a module is what its metadata says. */
  ghost predicate Says(sv: Semver, facts: Facts, metadata: Metadata) {
    && (forall d :: d in facts.needs <==> d in metadata.requirements)
    && (facts.prunes <==> !Blank(metadata.goVersion) && sv.compare("v" + metadata.goVersion, "v1.17") >= 0)
  }

  /** Some request was answered with good metadata that says so. */
  ghost predicate FetchedFor(p: Problem, c: Coordinate, facts: Facts) {
    p.fetch.Some? && exists request {:trigger p.fetch.value(request)} ::
      var response := p.fetch.value(request);
      response.Ok? && c in response.value && GoodMetadata(p.sv, c, response.value[c])
        && Says(p.sv, facts, response.value[c])
  }

  ghost predicate AllFetched(p: Problem, cache: Cache) {
    forall c {:trigger FetchedFor(p, c, cache[c])} :: c in cache ==> FetchedFor(p, c, cache[c])
  }

  lemma RoundFetched(p: Problem, cache: Cache)
    requires AllFetched(p, cache) && Round(p, cache).More?
    ensures AllFetched(p, Round(p, cache).cache)
  {
    var next, request := Round(p, cache).cache, Request(SetupOf(p), cache);
    var fetched := p.fetch.value(request).value;
    ResponseAccepted(p.sv, MissingAt(SetupOf(p), cache), fetched);
    forall c | c in next ensures FetchedFor(p, c, next[c]) {
      if c in fetched {
        assert GoodMetadata(p.sv, c, fetched[c]) && Says(p.sv, next[c], fetched[c]);
      } else {
        assert FetchedFor(p, c, cache[c]);
      }
    }
  }

  /** Everything cached in a run came from the fetcher. */
  lemma CachedIsFetched(p: Problem, run: seq<Cache>, i: nat)
    requires IsRun(p, run) && i < |run|
    ensures AllFetched(p, run[i])
  {
    var round := RoundsOf(p);
    var inv := cache => AllFetched(p, cache);
    forall cache {:trigger round(cache)} | inv(cache) && round(cache).More? ensures inv(round(cache).cache) {
      RoundFetched(p, cache);
    }
    RunKeeps(round, inv, run, i);
  }

  // ----- The selection -----

  /** Semantically lower, or equivalent and not above as text. */
  predicate NotAbove(sv: Semver, version: string, other: string) {
    sv.compare(version, other) < 0 || (sv.compare(version, other) == 0 && CompareText(version, other) <= 0)
  }

  /**
   Sorted modules, one a path, each required, cached, reached from the root and as high as
   anything required of its path.
   */
  ghost predicate ListsRequired(p: Problem, cache: Cache, modules: seq<Coordinate>) {
    && OnePerPath(modules)
    && (forall m :: m in modules ==> Requires(p, cache, m) && m in cache && exists route :: RouteTo(p, cache, route, m))
    && (forall d :: Requires(p, cache, d) ==>
          exists m :: m in modules && m.path == d.path && NotAbove(p.sv, d.version, m.version))
  }

  /** The root, or a loaded module of the list, requires a version of the path. */
  ghost predicate NeedsPath(p: Problem, cache: Cache, modules: seq<Coordinate>, from: Coordinate, path: string) {
    || (from == Coordinate(p.rootPath, "") && exists c :: c in p.roots && c.path == path)
    || (from in modules && Loads(p, cache, from) && exists c :: c in cache[from].needs && c.path == path)
  }

  /** Edges of the root come first; then they go by the path they leave, and then by the path they reach. */
  predicate EdgeBefore(root: Coordinate, a: Edge, b: Edge) {
    || (a.from == root && b.from != root)
    || (a.from == b.from && CompareText(a.to.path, b.to.path) < 0)
    || (a.from != root && b.from != root && CompareText(a.from.path, b.from.path) < 0)
  }

  /** Exactly the edges into the list, each once and in order. */
  ghost predicate LinksRequired(p: Problem, cache: Cache, modules: seq<Coordinate>, edges: seq<Edge>) {
    && (forall e {:trigger e in edges} :: e in edges <==>
          e.to in modules && NeedsPath(p, cache, modules, e.from, e.to.path))
    && (forall i, j :: 0 <= i < j < |edges| ==>
          edges[i] != edges[j] && EdgeBefore(Coordinate(p.rootPath, ""), edges[i], edges[j]))
  }

  ghost predicate Selects(p: Problem, cache: Cache, s: Selection) {
    ListsRequired(p, cache, s.modules) && LinksRequired(p, cache, s.modules, s.edges)
  }

  lemma RouteGiven(p: Problem, cache: Cache, m: Coordinate) returns (route: seq<Coordinate>)
    requires AllReached(SetupOf(p), cache) && Reached(SetupOf(p), cache, m)
    ensures RouteTo(p, cache, route, m)
  {
    var g := SetupOf(p);
    route :| Route(g.roots, cache, ModesAt(g, cache), route) && route[|route| - 1] == m;
    forall i | 0 <= i < |route| - 1 ensures Loads(p, cache, route[i]) && route[i + 1] in cache[route[i]].needs {
      assert Link(cache, ModesAt(g, cache), route, i);
      LoadedExactly(p, cache, route[i]);
    }
  }

  lemma ListGiven(p: Problem, cache: Cache, modules: seq<Coordinate>)
    requires AllReached(SetupOf(p), cache) && IsBuildList(SetupOf(p), cache, modules)
    ensures ListsRequired(p, cache, modules)
  {
    forall m | m in modules ensures Requires(p, cache, m) && m in cache && exists route :: RouteTo(p, cache, route, m) {
      assert MemberOk(SetupOf(p), cache, m);
      RequiredExactly(p, cache, m);
      var route := RouteGiven(p, cache, m);
    }
    forall d | Requires(p, cache, d)
      ensures exists m :: m in modules && m.path == d.path && NotAbove(p.sv, d.version, m.version)
    {
      RequiredExactly(p, cache, d);
      assert Covered(p.sv, modules, d);
      var m :| m in modules && m.path == d.path && CompareVersions(p.sv, d.version, m.version) <= 0;
      assert NotAbove(p.sv, d.version, m.version);
    }
  }

  lemma NeedsGiven(p: Problem, cache: Cache, modules: seq<Coordinate>, from: Coordinate, path: string)
    requires AllReached(SetupOf(p), cache)
    ensures Needs(SetupOf(p), cache, modules, from, path) <==> NeedsPath(p, cache, modules, from, path)
  {
    if from in cache {
      LoadedExactly(p, cache, from);
    }
  }

  /** With one module a path, the order of edges is decided by paths. */
  lemma PathsDecide(sv: Semver, root: Coordinate, modules: seq<Coordinate>, a: Edge, b: Edge)
    requires OnePerPath(modules) && CompareEdges(sv, root, a, b) < 0
    requires a.to in modules && b.to in modules
    requires (a.from == root || a.from in modules) && (b.from == root || b.from in modules)
    ensures a != b && EdgeBefore(root, a, b)
  {
    EdgeOrderTotal(sv, root);
    assert EdgeOrder(sv, root)(a, b) < 0;
    CoordinateOrderTotal(sv);
    assert CoordinateOrder(sv)(a.from, b.from) == 0 <==> a.from == b.from;
    if a.from == b.from {
      SamePathSame(modules, a.to, b.to);
    } else if a.from != root && b.from != root {
      SamePathSame(modules, a.from, b.from);
    }
  }

  lemma SamePathSame(modules: seq<Coordinate>, a: Coordinate, b: Coordinate)
    requires OnePerPath(modules) && a in modules && b in modules
    ensures CompareText(a.path, b.path) == 0 ==> a == b
  {
    TextIsTotalOrder();
    var i :| 0 <= i < |modules| && modules[i] == a;
    var j :| 0 <= j < |modules| && modules[j] == b;
    assert CompareText(a.path, b.path) == 0 ==> CompareText(b.path, a.path) == 0;
  }

  lemma LinksGiven(p: Problem, cache: Cache, modules: seq<Coordinate>, edges: seq<Edge>)
    requires AllReached(SetupOf(p), cache) && OnePerPath(modules) && AreEdges(SetupOf(p), cache, modules, edges)
    ensures LinksRequired(p, cache, modules, edges)
  {
    var root := Coordinate(p.rootPath, "");
    forall i, j | 0 <= i < j < |edges| ensures edges[i] != edges[j] && EdgeBefore(root, edges[i], edges[j]) {
      assert edges[i] in edges && edges[j] in edges && EdgeOrder(p.sv, root)(edges[i], edges[j]) < 0;
      PathsDecide(p.sv, root, modules, edges[i], edges[j]);
    }
    forall e {:trigger e in edges}
      ensures e in edges <==> e.to in modules && NeedsPath(p, cache, modules, e.from, e.to.path)
    {
      NeedsGiven(p, cache, modules, e.from, e.to.path);
    }
  }

  lemma SelectionGiven(p: Problem, cache: Cache, s: Selection)
    requires AllReached(SetupOf(p), cache) && IsSelection(SetupOf(p), cache, s)
    ensures Selects(p, cache, s)
  {
    ListGiven(p, cache, s.modules);
    LinksGiven(p, cache, s.modules, s.edges);
  }

  /** A successful run selects what pruning lets in: the highest of everything required, and the edges between. */
  lemma SelectionExact(p: Problem, run: seq<Cache>)
    requires IsRun(p, run) && ResultOf(p, run).Ok?
    ensures Selects(p, run[|run| - 1], ResultOf(p, run).value)
  {
    var cache, s := run[|run| - 1], ResultOf(p, run).value;
    CachedReached(p, run, |run| - 1);
    SelectionSound(p, run);
    SelectionGiven(p, cache, s);
  }
}
