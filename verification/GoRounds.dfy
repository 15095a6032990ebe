/**
 Module selection as a run of rounds over a growing metadata cache: the modes
 and versions each round computes, what it fetches, and what every run keeps.
 */
module GoRounds {
  import opened Wrappers
  import opened Ordering
  import opened Sorting
  import opened GoModules
  import opened GoLoadModes

  type Fetched = map<Coordinate, Metadata>
  type Fetch = seq<Coordinate> -> Result<Fetched, string>

  /** The root module, its requirements in file order, and the registry behind the fetcher, if there is one. */
  datatype Problem = Problem(sv: Semver, rootPath: string, goVersion: string, roots: seq<Coordinate>,
                             fetch: Option<Fetch>)

  datatype SelectError =
    | InvalidRootPath | InvalidRootDirective | InvalidRootRequirement(requirement: Coordinate)
    | IncomparableVersions | FetcherRequired
    | FetchFailed(message: string) | UnexpectedMetadata(c: Coordinate) | WrongModule(c: Coordinate)
    | InvalidRequirement(c: Coordinate, requirement: Coordinate) | MissingMetadata(c: Coordinate)

  /** A chosen version for each module path. */
  type Selected = map<string, string>

  datatype Selection = Selection(modules: seq<Coordinate>, edges: seq<Edge>)

  /** What a problem asks before anything is fetched, with the requirements as a set. */
  datatype Setup = Setup(sv: Semver, root: Coordinate, roots: set<Coordinate>, modes: Modes)

  function RootModes(p: Problem): Modes {
    map c | c in p.roots :: if Prunes(p.sv, p.goVersion) then Direct else Full
  }

  function SetupOf(p: Problem): Setup {
    Setup(p.sv, Coordinate(p.rootPath, ""), Elements(p.roots), RootModes(p))
  }

  // ----- Highest versions -----

  /** What the root and the loaded part of the cache require. */
  function Required(roots: set<Coordinate>, cache: Cache, modes: Modes): set<Coordinate> {
    roots + set c, d | c in cache && Rank(modes, c) > 0 && d in cache[c].needs :: d
  }

  /** For each required path, a required version that no other exceeds. */
  ghost predicate IsHighest(sv: Semver, required: set<Coordinate>, selected: Selected) {
    && (forall path :: path in selected ==> Coordinate(path, selected[path]) in required)
    && (forall c :: c in required ==> c.path in selected && CompareVersions(sv, c.version, selected[c.path]) <= 0)
  }

  lemma HighestUnique(sv: Semver, required: set<Coordinate>, a: Selected, b: Selected)
    requires IsHighest(sv, required, a) && IsHighest(sv, required, b)
    ensures a == b
  {
    VersionOrderTotal(sv);
    forall path ensures path in a <==> path in b {
      if path in a { assert Coordinate(path, a[path]) in required; }
      if path in b { assert Coordinate(path, b[path]) in required; }
    }
    forall path | path in a ensures a[path] == b[path] {
      assert Coordinate(path, a[path]) in required && Coordinate(path, b[path]) in required;
      assert VersionOrder(sv)(a[path], b[path]) <= 0 && VersionOrder(sv)(b[path], a[path]) <= 0;
    }
  }

  /** Selecting one more requirement, as the loop over requirements does. */
  function SelectHigher(sv: Semver, selected: Selected, c: Coordinate): Selected {
    if c.path !in selected || CompareVersions(sv, c.version, selected[c.path]) > 0
    then selected[c.path := c.version] else selected
  }

  lemma HigherKeepsHighest(sv: Semver, required: set<Coordinate>, selected: Selected, c: Coordinate)
    requires IsHighest(sv, required, selected)
    ensures IsHighest(sv, required + {c}, SelectHigher(sv, selected, c))
  {
    VersionOrderTotal(sv);
    var next := SelectHigher(sv, selected, c);
    forall d | d in required + {c} ensures d.path in next && CompareVersions(sv, d.version, next[d.path]) <= 0 {
      if d.path == c.path && c.path in selected {
        var v := VersionOrder(sv);
        assert d in required ==> v(d.version, selected[d.path]) <= 0;
        assert v(c.version, c.version) == 0;
        assert v(c.version, selected[c.path]) > 0 ==> v(selected[c.path], c.version) < 0;
      } else if d == c {
        assert VersionOrder(sv)(c.version, c.version) == 0;
      }
    }
  }

  /** Selecting the requirements of a list one after the other. */
  function SelectEach(sv: Semver, selected: Selected, requirements: seq<Coordinate>): Selected
    decreases |requirements|
  {
    if requirements == [] then selected
    else SelectEach(sv, SelectHigher(sv, selected, requirements[0]), requirements[1..])
  }

  lemma {:induction false} EachAppend(sv: Semver, selected: Selected, a: seq<Coordinate>, b: seq<Coordinate>)
    ensures SelectEach(sv, selected, a + b) == SelectEach(sv, SelectEach(sv, selected, a), b)
    decreases |a|
  {
    if a == [] {
      assert a + b == b;
    } else {
      assert (a + b)[1..] == a[1..] + b;
      EachAppend(sv, SelectHigher(sv, selected, a[0]), a[1..], b);
    }
  }

  lemma SeenElements(seen: set<Coordinate>, requirements: seq<Coordinate>)
    ensures requirements == [] ==> seen + Elements(requirements) == seen
    ensures requirements != [] ==>
            seen + Elements(requirements) == seen + {requirements[0]} + Elements(requirements[1..])
  {
    if requirements != [] {
      assert requirements == [requirements[0]] + requirements[1..];
    }
  }

  lemma {:induction false} EachIsHighest(sv: Semver, seen: set<Coordinate>, selected: Selected,
                                         requirements: seq<Coordinate>)
    requires IsHighest(sv, seen, selected)
    ensures IsHighest(sv, seen + Elements(requirements), SelectEach(sv, selected, requirements))
    decreases |requirements|
  {
    SeenElements(seen, requirements);
    if requirements != [] {
      HigherKeepsHighest(sv, seen, selected, requirements[0]);
      EachIsHighest(sv, seen + {requirements[0]}, SelectHigher(sv, selected, requirements[0]), requirements[1..]);
    }
  }

  lemma {:induction false} HighestExists(sv: Semver, required: set<Coordinate>) returns (selected: Selected)
    ensures IsHighest(sv, required, selected)
    decreases required
  {
    if required == {} {
      selected := map[];
    } else {
      var c :| c in required;
      var rest := HighestExists(sv, required - {c});
      selected := SelectHigher(sv, rest, c);
      HigherKeepsHighest(sv, required - {c}, rest, c);
      assert required - {c} + {c} == required;
    }
  }

  ghost function HighestOf(sv: Semver, required: set<Coordinate>): (selected: Selected)
    ensures IsHighest(sv, required, selected)
  {
    assert exists s :: IsHighest(sv, required, s) by { var s := HighestExists(sv, required); }
    var s :| IsHighest(sv, required, s);
    s
  }

  // ----- One round -----

  function InputError(p: Problem): Option<SelectError> {
    if !p.sv.isPath(p.rootPath) then Some(InvalidRootPath)
    else if !ValidDirective(p.sv, p.goVersion) then Some(InvalidRootDirective)
    else
      var bad := FirstInvalid(p.sv, p.roots);
      if bad.Some? then Some(InvalidRootRequirement(bad.value)) else None
  }

  ghost function ModesAt(g: Setup, cache: Cache): Modes {
    LeastModes(g.modes, cache)
  }

  ghost function RequiredAt(g: Setup, cache: Cache): set<Coordinate> {
    Required(g.roots, cache, ModesAt(g, cache))
  }

  ghost function SelectedAt(g: Setup, cache: Cache): Selected {
    HighestOf(g.sv, RequiredAt(g, cache))
  }

  function Chosen(selected: Selected): set<Coordinate> {
    set path | path in selected :: Coordinate(path, selected[path])
  }

  ghost function MissingAt(g: Setup, cache: Cache): set<Coordinate> {
    Chosen(SelectedAt(g, cache)) - cache.Keys
  }

  /** What is wrong with one fetched entry. */
  function Offence(sv: Semver, requested: set<Coordinate>, fetched: Fetched, c: Coordinate): Option<SelectError>
    requires c in fetched
  {
    if c !in requested then Some(UnexpectedMetadata(c))
    else if fetched[c].path != c.path then Some(WrongModule(c))
    else
      var bad := FirstInvalid(sv, fetched[c].requirements);
      if bad.Some? then Some(InvalidRequirement(c, bad.value)) else None
  }

  ghost function Offenders(sv: Semver, requested: set<Coordinate>, fetched: Fetched): set<Coordinate> {
    set c | c in fetched && Offence(sv, requested, fetched, c).Some?
  }

  ghost function FirstCoordinate(sv: Semver, s: set<Coordinate>): (c: Coordinate)
    requires s != {}
    ensures c in s
  {
    CoordinateOrderTotal(sv);
    First(CoordinateOrder(sv), s)
  }

  /** The first entry that offends, or else the first that was not returned. */
  ghost function FetchError(sv: Semver, requested: set<Coordinate>, fetched: Fetched): Option<SelectError> {
    if Offenders(sv, requested, fetched) != {}
    then Offence(sv, requested, fetched, FirstCoordinate(sv, Offenders(sv, requested, fetched)))
    else if requested - fetched.Keys != {} then Some(MissingMetadata(FirstCoordinate(sv, requested - fetched.Keys)))
    else None
  }

  function Target(selected: Selected, c: Coordinate): Coordinate {
    Coordinate(c.path, if c.path in selected then selected[c.path] else "")
  }

  function EdgesFrom(from: Coordinate, needs: set<Coordinate>, selected: Selected): set<Edge> {
    set c | c in needs :: Edge(from, Target(selected, c))
  }

  /** Edges from the root and from each loaded module of the build list to the selected versions. */
  function EdgeSet(g: Setup, selected: Selected, cache: Cache, modes: Modes): set<Edge> {
    EdgesFrom(g.root, g.roots, selected)
    + set m, c | m in Chosen(selected) && m in cache && Rank(modes, m) > 0 && c in cache[m].needs ::
      Edge(m, Target(selected, c))
  }

  ghost function SortedEdges(sv: Semver, root: Coordinate, s: set<Edge>): (q: seq<Edge>)
    ensures forall e :: e in q <==> e in s
  {
    EdgeOrderTotal(sv, root);
    Ordered(EdgeOrder(sv, root), s)
  }

  ghost function Build(g: Setup, cache: Cache): Selection {
    var selected := SelectedAt(g, cache);
    Selection(
      SortedCoordinates(g.sv, Chosen(selected)),
      SortedEdges(g.sv, g.root, EdgeSet(g, selected, cache, ModesAt(g, cache))))
  }

  datatype Progress = Done(selection: Selection) | Failed(error: SelectError) | More(cache: Cache)

  ghost function Request(g: Setup, cache: Cache): seq<Coordinate> {
    SortedCoordinates(g.sv, MissingAt(g, cache))
  }

  /** What a round does with the fetcher's response. */
  ghost function Accept(g: Setup, cache: Cache, response: Result<Fetched, string>): Progress {
    if response.Err? then Failed(FetchFailed(response.error))
    else
      var error := FetchError(g.sv, MissingAt(g, cache), response.value);
      if error.Some? then Failed(error.value) else More(cache + CacheOf(g.sv, response.value))
  }

  ghost function Round(p: Problem, cache: Cache): Progress {
    var g := SetupOf(p);
    if MissingAt(g, cache) == {} then Done(Build(g, cache))
    else if p.fetch.None? then Failed(FetcherRequired)
    else Accept(g, cache, p.fetch.value(Request(g, cache)))
  }

  // ----- Runs -----

  type Rounds = Cache -> Progress

  ghost function RoundsOf(p: Problem): Rounds {
    cache => Round(p, cache)
  }

  ghost predicate RoundAt(round: Rounds, run: seq<Cache>, i: nat)
    requires i < |run| - 1
  {
    round(run[i]) == More(run[i + 1])
  }

  ghost predicate Follows(round: Rounds, run: seq<Cache>) {
    && run != [] && run[0] == map[]
    && forall i {:trigger RoundAt(round, run, i)} :: 0 <= i < |run| - 1 ==> RoundAt(round, run, i)
  }

  /** A finished run: the cache at the start of each round, from empty until no round follows. */
  ghost predicate Ends(round: Rounds, run: seq<Cache>) {
    Follows(round, run) && !round(run[|run| - 1]).More?
  }

  ghost function LastOf(round: Rounds, run: seq<Cache>): Result<Selection, SelectError>
    requires Ends(round, run)
  {
    var last := round(run[|run| - 1]);
    if last.Done? then Ok(last.selection) else Err(last.error)
  }

  ghost predicate IsRun(p: Problem, run: seq<Cache>) { Ends(RoundsOf(p), run) }

  ghost function ResultOf(p: Problem, run: seq<Cache>): Result<Selection, SelectError>
    requires IsRun(p, run)
  {
    LastOf(RoundsOf(p), run)
  }

  /** Each round adds exactly what it requested. */
  ghost predicate Grows(round: Rounds, missing: Cache -> set<Coordinate>) {
    forall cache {:trigger round(cache)} :: round(cache).More? ==>
      && Extends(cache, round(cache).cache)
      && round(cache).cache.Keys == cache.Keys + missing(cache)
  }

  ghost predicate Uncached(missing: Cache -> set<Coordinate>) {
    forall cache {:trigger missing(cache)} :: missing(cache) !! cache.Keys
  }

  lemma {:induction false} RunGrows(round: Rounds, missing: Cache -> set<Coordinate>, run: seq<Cache>, i: nat, j: nat)
    requires Grows(round, missing) && Follows(round, run) && i <= j < |run|
    ensures Extends(run[i], run[j])
    decreases j - i
  {
    if i < j {
      RunGrows(round, missing, run, i, j - 1);
      assert RoundAt(round, run, j - 1);
    }
  }

  lemma RunRequestsOnce(round: Rounds, missing: Cache -> set<Coordinate>, run: seq<Cache>, i: nat, j: nat)
    requires Grows(round, missing) && Follows(round, run) && Uncached(missing) && i < j < |run|
    ensures missing(run[i]) !! missing(run[j])
  {
    assert RoundAt(round, run, i);
    RunGrows(round, missing, run, i + 1, j);
  }

  lemma {:induction false} RunKeeps(round: Rounds, inv: Cache -> bool, run: seq<Cache>, i: nat)
    requires Follows(round, run) && i < |run| && inv(map[])
    requires forall cache {:trigger round(cache)} :: inv(cache) && round(cache).More? ==> inv(round(cache).cache)
    ensures inv(run[i])
  {
    if i > 0 {
      RunKeeps(round, inv, run, i - 1);
      assert RoundAt(round, run, i - 1);
    }
  }

  ghost function MissingOf(g: Setup): Cache -> set<Coordinate> {
    cache => MissingAt(g, cache)
  }

  lemma AcceptGrows(g: Setup, cache: Cache, response: Result<Fetched, string>)
    requires Accept(g, cache, response).More?
    ensures var next := Accept(g, cache, response).cache;
            Extends(cache, next) && next.Keys == cache.Keys + MissingAt(g, cache)
  {
    FetchedIsRequested(g.sv, MissingAt(g, cache), response.value);
  }

  lemma RoundsGrow(p: Problem)
    ensures Grows(RoundsOf(p), MissingOf(SetupOf(p))) && Uncached(MissingOf(SetupOf(p)))
  {
    var round, g := RoundsOf(p), SetupOf(p);
    forall cache {:trigger round(cache)} | round(cache).More?
      ensures Extends(cache, round(cache).cache) && round(cache).cache.Keys == cache.Keys + MissingAt(g, cache)
    {
      AcceptGrows(g, cache, p.fetch.value(Request(g, cache)));
    }
  }

  lemma FetchedIsRequested(sv: Semver, requested: set<Coordinate>, fetched: Fetched)
    requires FetchError(sv, requested, fetched).None?
    ensures fetched.Keys == requested && forall c :: c in fetched ==>
            fetched[c].path == c.path && AllValid(sv, fetched[c].requirements)
  {
    assert Offenders(sv, requested, fetched) == {};
    forall c | c in fetched ensures Offence(sv, requested, fetched, c).None? && c in requested {
      assert c !in Offenders(sv, requested, fetched);
    }
    forall c | c in requested ensures c in fetched {
      assert c !in requested - fetched.Keys;
    }
  }

  lemma CacheGrows(p: Problem, run: seq<Cache>, i: nat, j: nat)
    requires IsRun(p, run) && i <= j < |run|
    ensures Extends(run[i], run[j])
  {
    RoundsGrow(p);
    RunGrows(RoundsOf(p), MissingOf(SetupOf(p)), run, i, j);
  }

  /** No coordinate is requested in two rounds. */
  lemma NothingRequestedTwice(p: Problem, run: seq<Cache>, i: nat, j: nat)
    requires IsRun(p, run) && i < j < |run|
    ensures MissingAt(SetupOf(p), run[i]) !! MissingAt(SetupOf(p), run[j])
  {
    RoundsGrow(p);
    RunRequestsOnce(RoundsOf(p), MissingOf(SetupOf(p)), run, i, j);
  }

  lemma RequiredGrows(g: Setup, small: Cache, large: Cache)
    requires Extends(small, large)
    ensures RequiredAt(g, small) <= RequiredAt(g, large)
  {
    MoreCacheMoreModes(g.modes, small, large);
    forall d | d in RequiredAt(g, small) ensures d in RequiredAt(g, large) {
      if d !in g.roots {
        var c :| c in small && Rank(ModesAt(g, small), c) > 0 && d in small[c].needs;
        assert c in large && Rank(ModesAt(g, large), c) > 0 && d in large[c].needs;
      }
    }
  }

  lemma SelectedRises(g: Setup, small: Cache, large: Cache, path: string)
    requires Extends(small, large) && path in SelectedAt(g, small)
    ensures path in SelectedAt(g, large)
            && CompareVersions(g.sv, SelectedAt(g, small)[path], SelectedAt(g, large)[path]) <= 0
  {
    RequiredGrows(g, small, large);
    assert Coordinate(path, SelectedAt(g, small)[path]) in RequiredAt(g, large);
  }

  /** A selected version is never lowered, and a selected path never dropped. */
  lemma SelectedNeverLowered(p: Problem, run: seq<Cache>, i: nat, j: nat, path: string)
    requires IsRun(p, run) && i <= j < |run| && path in SelectedAt(SetupOf(p), run[i])
    ensures path in SelectedAt(SetupOf(p), run[j])
    ensures CompareVersions(p.sv, SelectedAt(SetupOf(p), run[i])[path], SelectedAt(SetupOf(p), run[j])[path]) <= 0
  {
    CacheGrows(p, run, i, j);
    SelectedRises(SetupOf(p), run[i], run[j], path);
  }

  // ----- Reachability -----

  /** A chain of requirements from the root through loaded, cached modules. */
  ghost predicate Route(roots: set<Coordinate>, cache: Cache, modes: Modes, route: seq<Coordinate>) {
    && route != [] && route[0] in roots
    && forall i {:trigger Link(cache, modes, route, i)} :: 0 <= i < |route| - 1 ==> Link(cache, modes, route, i)
  }

  ghost predicate Link(cache: Cache, modes: Modes, route: seq<Coordinate>, i: nat)
    requires i < |route| - 1
  {
    route[i] in cache && Rank(modes, route[i]) > 0 && route[i + 1] in cache[route[i]].needs
  }

  lemma RouteOn(roots: set<Coordinate>, cache: Cache, modes: Modes, route: seq<Coordinate>, d: Coordinate)
    requires Route(roots, cache, modes, route)
    requires var c := route[|route| - 1]; c in cache && Rank(modes, c) > 0 && d in cache[c].needs
    ensures Route(roots, cache, modes, route + [d])
  {
    var longer := route + [d];
    forall i {:trigger Link(cache, modes, longer, i)} | 0 <= i < |longer| - 1 ensures Link(cache, modes, longer, i) {
      if i < |route| - 1 {
        assert Link(cache, modes, route, i);
      }
    }
  }

  lemma RouteKept(roots: set<Coordinate>, small: Cache, low: Modes, large: Cache, high: Modes, route: seq<Coordinate>)
    requires Extends(small, large) && Above(low, high) && Route(roots, small, low, route)
    ensures Route(roots, large, high, route)
  {
    forall i {:trigger Link(large, high, route, i)} | 0 <= i < |route| - 1 ensures Link(large, high, route, i) {
      assert Link(small, low, route, i);
    }
  }

  ghost predicate Reached(g: Setup, cache: Cache, c: Coordinate) {
    exists route :: Route(g.roots, cache, ModesAt(g, cache), route) && route[|route| - 1] == c
  }

  ghost predicate AllReached(g: Setup, cache: Cache) {
    forall c :: c in cache ==> Reached(g, cache, c)
  }

  lemma StaysReached(g: Setup, small: Cache, large: Cache, c: Coordinate)
    requires Extends(small, large) && Reached(g, small, c)
    ensures Reached(g, large, c)
  {
    MoreCacheMoreModes(g.modes, small, large);
    var route :| Route(g.roots, small, ModesAt(g, small), route) && route[|route| - 1] == c;
    RouteKept(g.roots, small, ModesAt(g, small), large, ModesAt(g, large), route);
  }

  lemma RequiredReached(g: Setup, cache: Cache, d: Coordinate)
    requires AllReached(g, cache) && d in RequiredAt(g, cache)
    ensures Reached(g, cache, d)
  {
    var roots, modes := g.roots, ModesAt(g, cache);
    if d in roots {
      assert Route(roots, cache, modes, [d]);
      assert [d][|[d]| - 1] == d;
    } else {
      var c :| c in cache && Rank(modes, c) > 0 && d in cache[c].needs;
      var route :| Route(roots, cache, modes, route) && route[|route| - 1] == c;
      var longer := route + [d];
      RouteOn(roots, cache, modes, route, d);
      assert longer[|longer| - 1] == d;
    }
  }

  lemma ReachedStep(g: Setup, cache: Cache, response: Result<Fetched, string>)
    requires AllReached(g, cache) && Accept(g, cache, response).More?
    ensures AllReached(g, Accept(g, cache, response).cache)
  {
    var next := Accept(g, cache, response).cache;
    AcceptGrows(g, cache, response);
    forall c | c in next ensures Reached(g, next, c) {
      if c !in cache {
        ChosenRequired(g, cache, c);
        RequiredReached(g, cache, c);
      }
      StaysReached(g, cache, next, c);
    }
  }

  lemma ChosenRequired(g: Setup, cache: Cache, c: Coordinate)
    requires c in Chosen(SelectedAt(g, cache))
    ensures c in RequiredAt(g, cache)
  {
  }

  lemma RoundReached(p: Problem, cache: Cache)
    requires AllReached(SetupOf(p), cache) && Round(p, cache).More?
    ensures AllReached(SetupOf(p), Round(p, cache).cache)
  {
    var g := SetupOf(p);
    ReachedStep(g, cache, p.fetch.value(Request(g, cache)));
  }

  lemma CachedReached(p: Problem, run: seq<Cache>, i: nat)
    requires IsRun(p, run) && i < |run|
    ensures AllReached(SetupOf(p), run[i])
  {
    var round, g := RoundsOf(p), SetupOf(p);
    var inv := cache => AllReached(g, cache);
    forall cache {:trigger round(cache)} | inv(cache) && round(cache).More? ensures inv(round(cache).cache) {
      RoundReached(p, cache);
    }
    RunKeeps(round, inv, run, i);
  }

  // ----- The final selection -----

  /** Sorted, one version of each path. */
  ghost predicate OnePerPath(modules: seq<Coordinate>) {
    forall i, j :: 0 <= i < j < |modules| ==> CompareText(modules[i].path, modules[j].path) < 0
  }

  /** Required, cached, and reached from the root. */
  ghost predicate MemberOk(g: Setup, cache: Cache, m: Coordinate) {
    m in RequiredAt(g, cache) && m in cache && Reached(g, cache, m)
  }

  ghost predicate IsBuildList(g: Setup, cache: Cache, modules: seq<Coordinate>) {
    && OnePerPath(modules)
    && (forall m {:trigger MemberOk(g, cache, m)} :: m in modules ==> MemberOk(g, cache, m))
    // And nothing higher is required.
    && (forall c {:trigger Covered(g.sv, modules, c)} :: c in RequiredAt(g, cache) ==> Covered(g.sv, modules, c))
  }

  ghost predicate Covered(sv: Semver, modules: seq<Coordinate>, c: Coordinate) {
    exists m :: m in modules && m.path == c.path && CompareVersions(sv, c.version, m.version) <= 0
  }

  /** A module, or the root, requires some version of the other's path. */
  ghost predicate Needs(g: Setup, cache: Cache, modules: seq<Coordinate>, from: Coordinate, path: string) {
    || (from == g.root && exists c :: c in g.roots && c.path == path)
    || (from in modules && from in cache && Rank(ModesAt(g, cache), from) > 0 && exists c ::
        c in cache[from].needs && c.path == path)
  }

  ghost predicate AreEdges(g: Setup, cache: Cache, modules: seq<Coordinate>, edges: seq<Edge>) {
    && StrictlySortedBy(EdgeOrder(g.sv, g.root), edges)
    && forall e {:trigger e in edges} :: e in edges <==> e.to in modules && Needs(g, cache, modules, e.from, e.to.path)
  }

  ghost predicate IsSelection(g: Setup, cache: Cache, s: Selection) {
    IsBuildList(g, cache, s.modules) && AreEdges(g, cache, s.modules, s.edges)
  }

  lemma BuildOk(g: Setup, cache: Cache)
    requires MissingAt(g, cache) == {} && AllReached(g, cache)
    ensures IsSelection(g, cache, Build(g, cache))
  {
    BuildListOk(g, cache);
    EdgesOk(g, cache);
  }

  lemma SamePathSame(selected: Selected, a: Coordinate, b: Coordinate)
    requires a in Chosen(selected) && b in Chosen(selected)
    ensures a.path == b.path ==> a == b
  {
  }

  lemma BuildListSorted(g: Setup, selected: Selected)
    ensures OnePerPath(SortedCoordinates(g.sv, Chosen(selected)))
  {
    CoordinateOrderTotal(g.sv);
    TextIsTotalOrder();
    var modules := SortedCoordinates(g.sv, Chosen(selected));
    forall i, j | 0 <= i < j < |modules| ensures CompareText(modules[i].path, modules[j].path) < 0 {
      assert CoordinateOrder(g.sv)(modules[i], modules[j]) < 0;
      assert modules[i] in Chosen(selected) && modules[j] in Chosen(selected);
      SamePathSame(selected, modules[i], modules[j]);
    }
  }

  lemma ChosenOk(g: Setup, cache: Cache, m: Coordinate)
    requires MissingAt(g, cache) == {} && AllReached(g, cache) && m in Chosen(SelectedAt(g, cache))
    ensures MemberOk(g, cache, m)
  {
    ChosenRequired(g, cache, m);
    RequiredReached(g, cache, m);
    assert m !in MissingAt(g, cache);
  }

  lemma RequiredCovered(g: Setup, cache: Cache, modules: seq<Coordinate>, c: Coordinate)
    requires c in RequiredAt(g, cache) && forall m :: m in Chosen(SelectedAt(g, cache)) ==> m in modules
    ensures Covered(g.sv, modules, c)
  {
    var selected := SelectedAt(g, cache);
    assert Coordinate(c.path, selected[c.path]) in modules;
  }

  lemma ListsChosen(g: Setup, cache: Cache, modules: seq<Coordinate>)
    requires MissingAt(g, cache) == {} && AllReached(g, cache) && OnePerPath(modules)
    requires forall m :: m in modules <==> m in Chosen(SelectedAt(g, cache))
    ensures IsBuildList(g, cache, modules)
  {
    forall m {:trigger MemberOk(g, cache, m)} | m in modules ensures MemberOk(g, cache, m) {
      ChosenOk(g, cache, m);
    }
    forall c {:trigger Covered(g.sv, modules, c)} | c in RequiredAt(g, cache) ensures Covered(g.sv, modules, c) {
      RequiredCovered(g, cache, modules, c);
    }
  }

  lemma BuildListOk(g: Setup, cache: Cache)
    requires MissingAt(g, cache) == {} && AllReached(g, cache)
    ensures IsBuildList(g, cache, Build(g, cache).modules)
  {
    BuildListSorted(g, SelectedAt(g, cache));
    ListsChosen(g, cache, SortedCoordinates(g.sv, Chosen(SelectedAt(g, cache))));
  }

  lemma EdgeIff(g: Setup, cache: Cache, e: Edge)
    ensures var selected := SelectedAt(g, cache); var modules := Build(g, cache).modules;
            e in EdgeSet(g, selected, cache, ModesAt(g, cache)) <==>
              e.to in modules && Needs(g, cache, modules, e.from, e.to.path)
  {
    var selected, modules, modes := SelectedAt(g, cache), Build(g, cache).modules, ModesAt(g, cache);
    assert forall c :: c in modules <==> c in Chosen(selected);
    if e in EdgesFrom(g.root, g.roots, selected) {
      var c :| c in g.roots && e == Edge(g.root, Target(selected, c));
      assert c in RequiredAt(g, cache);
    } else if e in EdgeSet(g, selected, cache, modes) {
      var c :| e.from in Chosen(selected) && e.from in cache && Rank(modes, e.from) > 0 && c in cache[e.from].needs
        && e.to == Target(selected, c);
      assert c in RequiredAt(g, cache);
    }
    if e.to in modules && Needs(g, cache, modules, e.from, e.to.path) {
      assert e.to == Coordinate(e.to.path, selected[e.to.path]);
      if e.from == g.root && exists c :: c in g.roots && c.path == e.to.path {
        var c :| c in g.roots && c.path == e.to.path;
        assert e == Edge(g.root, Target(selected, c));
      } else {
        var c :| c in cache[e.from].needs && c.path == e.to.path;
        assert e == Edge(e.from, Target(selected, c));
      }
    }
  }

  lemma EdgesOk(g: Setup, cache: Cache)
    ensures AreEdges(g, cache, Build(g, cache).modules, Build(g, cache).edges)
  {
    EdgeOrderTotal(g.sv, g.root);
    forall e {:trigger e in Build(g, cache).edges}
      ensures e in Build(g, cache).edges <==>
              e.to in Build(g, cache).modules && Needs(g, cache, Build(g, cache).modules, e.from, e.to.path)
    {
      EdgeIff(g, cache, e);
    }
  }

  /**
   A successful run ends in a build list of highest required, cached and reachable versions, with
   exactly the edges between them.
   */
  lemma SelectionSound(p: Problem, run: seq<Cache>)
    requires IsRun(p, run) && ResultOf(p, run).Ok?
    ensures IsSelection(SetupOf(p), run[|run| - 1], ResultOf(p, run).value)
  {
    CachedReached(p, run, |run| - 1);
    BuildOk(SetupOf(p), run[|run| - 1]);
  }

  // ----- Order does not matter -----

  ghost predicate SameMetadata(a: Metadata, b: Metadata) {
    a.path == b.path && a.goVersion == b.goVersion && Elements(a.requirements) == Elements(b.requirements)
  }

  ghost predicate SameFetched(a: Fetched, b: Fetched) {
    a.Keys == b.Keys && forall c :: c in a ==> SameMetadata(a[c], b[c])
  }

  ghost predicate SameResponse(a: Result<Fetched, string>, b: Result<Fetched, string>) {
    if a.Ok? then b.Ok? && SameFetched(a.value, b.value) else a == b
  }

  /** The same problem up to the order and repetition of requirements, at the root and in every response. */
  ghost predicate SameProblem(p: Problem, q: Problem) {
    && p.sv == q.sv && p.rootPath == q.rootPath && p.goVersion == q.goVersion && Elements(p.roots) == Elements(q.roots)
    && (p.fetch.Some? <==> q.fetch.Some?)
    && (p.fetch.Some? ==> forall request :: SameResponse(p.fetch.value(request), q.fetch.value(request)))
  }

  lemma SameValidity(sv: Semver, a: seq<Coordinate>, b: seq<Coordinate>)
    requires Elements(a) == Elements(b)
    ensures AllValid(sv, a) <==> AllValid(sv, b)
  {
    forall i | 0 <= i < |a| ensures AllValid(sv, b) ==> ValidCoordinate(sv, a[i]) {
      assert a[i] in Elements(b);
    }
    forall i | 0 <= i < |b| ensures AllValid(sv, a) ==> ValidCoordinate(sv, b[i]) {
      assert b[i] in Elements(a);
    }
  }

  /** Equal, or naming different invalid requirements of the same owner. */
  predicate SameError(e: SelectError, f: SelectError) {
    || e == f
    || (e.InvalidRequirement? && f.InvalidRequirement? && e.c == f.c)
    || (e.InvalidRootRequirement? && f.InvalidRootRequirement?)
  }

  predicate SameErrors(e: Option<SelectError>, f: Option<SelectError>) {
    if e.Some? && f.Some? then SameError(e.value, f.value) else e == f
  }

  /**
   An invalid requirement is reported whatever the order, and is the same one exactly when it
   comes first in both orders.
   */
  lemma SameOffence(sv: Semver, requested: set<Coordinate>, a: Fetched, b: Fetched, c: Coordinate)
    requires SameFetched(a, b) && c in a
    ensures SameErrors(Offence(sv, requested, a, c), Offence(sv, requested, b, c))
    ensures Offence(sv, requested, a, c) == Offence(sv, requested, b, c) <==>
            c !in requested || a[c].path != c.path
              || FirstInvalid(sv, a[c].requirements) == FirstInvalid(sv, b[c].requirements)
  {
    SameValidity(sv, a[c].requirements, b[c].requirements);
  }

  /** Two invalid requirements, each reported in one order. */
  lemma NamedByOrder(sv: Semver, a: Coordinate, b: Coordinate)
    requires !ValidCoordinate(sv, a) && !ValidCoordinate(sv, b) && a != b
    ensures Elements([a, b]) == Elements([b, a]) && FirstInvalid(sv, [a, b]) != FirstInvalid(sv, [b, a])
  {
    assert [a, b][0] == a && [b, a][0] == b;
    forall c ensures c in Elements([a, b]) <==> c in Elements([b, a]) {
      assert c in [a, b] <==> c == a || c == b;
      assert c in [b, a] <==> c == a || c == b;
    }
  }

  lemma SameInputError(p: Problem, q: Problem)
    requires SameProblem(p, q)
    ensures SameErrors(InputError(p), InputError(q))
  {
    SameValidity(p.sv, p.roots, q.roots);
  }

  lemma SameFetchError(sv: Semver, requested: set<Coordinate>, a: Fetched, b: Fetched)
    requires SameFetched(a, b)
    ensures SameErrors(FetchError(sv, requested, a), FetchError(sv, requested, b))
  {
    forall c | c in a ensures SameErrors(Offence(sv, requested, a, c), Offence(sv, requested, b, c)) {
      SameOffence(sv, requested, a, b, c);
    }
    assert Offenders(sv, requested, a) == Offenders(sv, requested, b);
  }

  predicate SameProgress(a: Progress, b: Progress) {
    if a.Failed? && b.Failed? then SameError(a.error, b.error) else a == b
  }

  lemma SameAccept(g: Setup, cache: Cache, a: Result<Fetched, string>, b: Result<Fetched, string>)
    requires SameResponse(a, b)
    ensures SameProgress(Accept(g, cache, a), Accept(g, cache, b))
  {
    if a.Ok? {
      SameFetchError(g.sv, MissingAt(g, cache), a.value, b.value);
      assert CacheOf(g.sv, a.value) == CacheOf(g.sv, b.value);
    }
  }

  lemma SameSetup(p: Problem, q: Problem)
    requires SameProblem(p, q)
    ensures SetupOf(p) == SetupOf(q)
  {
    assert forall c :: c in p.roots <==> c in Elements(p.roots);
    assert forall c :: c in q.roots <==> c in Elements(q.roots);
    assert RootModes(p) == RootModes(q);
  }

  lemma SameRound(p: Problem, q: Problem, cache: Cache)
    requires SameProblem(p, q)
    ensures SameProgress(Round(p, cache), Round(q, cache))
  {
    SameSetup(p, q);
    var g := SetupOf(p);
    if p.fetch.Some? {
      SameAccept(g, cache, p.fetch.value(Request(g, cache)), q.fetch.value(Request(g, cache)));
    }
  }

  ghost predicate Alike(round: Rounds, other: Rounds) {
    forall cache {:trigger round(cache)} {:trigger other(cache)} :: SameProgress(round(cache), other(cache))
  }

  lemma RoundsAlike(p: Problem, q: Problem)
    requires SameProblem(p, q)
    ensures Alike(RoundsOf(p), RoundsOf(q))
  {
    var round, other := RoundsOf(p), RoundsOf(q);
    forall cache {:trigger round(cache)} {:trigger other(cache)} ensures SameProgress(round(cache), other(cache)) {
      SameRound(p, q, cache);
    }
  }

  /** A finished run is as long as it can be, and rounds are functions. */
  lemma {:induction false} RunsAgree(round: Rounds, other: Rounds, a: seq<Cache>, b: seq<Cache>, i: nat)
    requires Follows(round, a) && Ends(other, b) && Alike(round, other) && i < |a|
    ensures i < |b| && a[i] == b[i]
  {
    if i > 0 {
      RunsAgree(round, other, a, b, i - 1);
      assert RoundAt(round, a, i - 1) && other(b[i - 1]).More?;
      assert RoundAt(other, b, i - 1);
    }
  }

  ghost predicate SameResult(a: Result<Selection, SelectError>, b: Result<Selection, SelectError>) {
    if a.Err? && b.Err? then SameError(a.error, b.error) else a == b
  }

  lemma RunsEqual(round: Rounds, other: Rounds, a: seq<Cache>, b: seq<Cache>)
    requires Ends(round, a) && Ends(other, b) && Alike(round, other)
    ensures a == b && SameResult(LastOf(round, a), LastOf(other, b))
  {
    RunsAgree(round, other, a, b, |a| - 1);
    RunsAgree(other, round, b, a, |b| - 1);
    forall i | 0 <= i < |a| ensures a[i] == b[i] { RunsAgree(round, other, a, b, i); }
  }

  /**
   Reordering or repeating requirements changes no round, neither the selection nor
   the kind and the owner of an error; only the invalid requirement that is named can change.
   */
  lemma OrderDoesNotMatter(p: Problem, q: Problem, a: seq<Cache>, b: seq<Cache>)
    requires SameProblem(p, q) && IsRun(p, a) && IsRun(q, b)
    ensures a == b && SameResult(ResultOf(p, a), ResultOf(q, b))
  {
    RoundsAlike(p, q);
    RunsEqual(RoundsOf(p), RoundsOf(q), a, b);
  }
}
